/** Small vocabulary shared by the model: options, searches in byte strings,
    and the order-preserving embedding of one sequence in another.

    A byte string is a `string` whose characters stand for byte values; every
    theorem below is stated for all strings, hence for all byte strings. */
module Prelude {

  datatype Option<+T> = None | Some(value: T)

  const INT64_MAX := 0x7FFF_FFFF_FFFF_FFFF

  type Int64 = x: int | -0x8000_0000_0000_0000 <= x <= INT64_MAX

  /** Index of the first `c` in `s`, as `std::string::find`. */
  function Find(s: string, c: char): (r: Option<nat>)
    ensures r.Some? ==> r.value < |s| && s[r.value] == c && c !in s[..r.value]
    ensures r.None? <==> c !in s
  {
    if s == "" then None
    else if s[0] == c then Some(0)
    else
      assert s == [s[0]] + s[1..];
      match Find(s[1..], c)
      case None => None
      case Some(i) =>
        assert s[..i + 1] == [s[0]] + s[1..][..i];
        Some(i + 1)
  }

  /** Index of the last `c` in `s`, as `std::string::rfind`. */
  function FindLast(s: string, c: char): (r: Option<nat>)
    ensures r.Some? ==> r.value < |s| && s[r.value] == c && c !in s[r.value + 1..]
    ensures r.None? <==> c !in s
  {
    if s == "" then None
    else
      var n := |s| - 1;
      assert s == s[..n] + [s[n]];
      if s[n] == c then Some(n)
      else
        match FindLast(s[..n], c)
        case None => None
        case Some(i) =>
          assert s[i + 1..] == s[..n][i + 1..] + [s[n]];
          Some(i)
  }

  lemma Absent(s: string, c: char)
    requires c !in s
    ensures forall k :: 0 <= k < |s| ==> s[k] != c
  {
  }

  lemma FirstAt(s: string, c: char, i: nat)
    requires i < |s| && s[i] == c && c !in s[..i]
    ensures Find(s, c) == Some(i)
  {
    var j := Find(s, c).value;
    Absent(s[..i], c);
    Absent(s[..j], c);
    assert forall k :: 0 <= k < i ==> s[k] == s[..i][k];
    assert forall k :: 0 <= k < j ==> s[k] == s[..j][k];
  }

  lemma LastAt(s: string, c: char, i: nat)
    requires i < |s| && s[i] == c && c !in s[i + 1..]
    ensures FindLast(s, c) == Some(i)
  {
    var j := FindLast(s, c).value;
    Absent(s[i + 1..], c);
    Absent(s[j + 1..], c);
    assert forall k :: i + 1 <= k < |s| ==> s[k] == s[i + 1..][k - i - 1];
    assert forall k :: j + 1 <= k < |s| ==> s[k] == s[j + 1..][k - j - 1];
  }

  lemma Assoc(a: string, b: string, c: string)
    ensures (a + b) + c == a + (b + c)
  {
  }

  predicate StrictlyIncreasing(s: seq<nat>) {
    forall i, j :: 0 <= i < j < |s| ==> s[i] < s[j]
  }

  /** `idx` selects `a` out of `b`: strictly increasing positions of `b`
      holding the elements of `a`. */
  ghost predicate Selects<T>(idx: seq<nat>, a: seq<T>, b: seq<T>) {
    && |idx| == |a|
    && StrictlyIncreasing(idx)
    && forall i :: 0 <= i < |a| ==> idx[i] < |b| && b[idx[i]] == a[i]
  }

  ghost predicate Subsequence<T(!new)>(a: seq<T>, b: seq<T>) {
    exists idx :: Selects(idx, a, b)
  }
}
