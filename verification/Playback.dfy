/** The cached playback machine of `pcd_loader_node.cpp`, and the uncached
    player it is indistinguishable from while the files do not change. */
module Playback {
  import opened Prelude
  import Division

  datatype Message<Cloud> = Message(cloud: Cloud, frameId: string, stamp: nat)

  // ------------------------------------------------------- the uncached player

  /** The playlist entry of tick `k`, or none when playback is over. */
  function EntryOfTick(n: nat, loop: bool, k: nat): Option<nat>
    requires n > 0
  {
    if loop then Some(k % n) else if k < n then Some(k) else None
  }

  /** What one tick shows: the entry's file loaded afresh, nothing if it fails. */
  function Shown<Cloud>(load: string -> Option<Cloud>, playlist: seq<string>, entry: Option<nat>): seq<Cloud>
    requires entry.Some? ==> entry.value < |playlist|
  {
    if entry.None? then []
    else match load(playlist[entry.value]) case None => [] case Some(cloud) => [cloud]
  }

  function Played<Cloud>(load: string -> Option<Cloud>, playlist: seq<string>, loop: bool, ticks: nat): seq<Cloud>
    requires playlist != []
  {
    if ticks == 0 then []
    else Played(load, playlist, loop, ticks - 1) + Shown(load, playlist, EntryOfTick(|playlist|, loop, ticks - 1))
  }

  function Clouds<Cloud>(messages: seq<Message<Cloud>>): seq<Cloud> {
    seq(|messages|, i requires 0 <= i < |messages| => messages[i].cloud)
  }

  // -------------------------------------------------------- the cached player

  class PcdLoader<Cloud(==)> {
    const playlist: seq<string>
    const loop: bool
    const frameId: string
    const load: string -> Option<Cloud>   // loadPCDFile over files that do not change
    var currentIndex: nat
    var cachedIndex: Option<nat>
    var cachedMsg: Option<Message<Cloud>>
    var timerActive: bool
    var published: seq<Message<Cloud>>
    ghost var ticks: nat

    /** The cache holds a message only together with the index it was loaded for. */
    ghost predicate CacheCoherent()
      reads this
    {
      && (cachedMsg.Some? <==> cachedIndex.Some?)
      && (cachedIndex.Some? ==>
            && cachedIndex.value < |playlist|
            && load(playlist[cachedIndex.value]) == Some(cachedMsg.value.cloud)
            && cachedMsg.value.frameId == frameId)
    }

    /** The loader has shown what the uncached player shows. */
    ghost predicate Valid()
      reads this
    {
      && playlist != [] && CacheCoherent()
      && currentIndex == (if loop then ticks % |playlist| else if ticks < |playlist| then ticks else |playlist|)
      && Clouds(published) == Played(load, playlist, loop, ticks)
      && (timerActive <==> loop || ticks < |playlist|)
    }

    constructor (playlist: seq<string>, loop: bool, frameId: string, load: string -> Option<Cloud>)
      requires playlist != []
      ensures this.playlist == playlist && this.loop == loop && this.frameId == frameId && this.load == load
      ensures Valid() && ticks == 0 && published == []
      ensures cachedMsg.Some? <==> load(playlist[0]).Some?   // otherwise start-up fails
    {
      this.playlist, this.loop, this.frameId, this.load := playlist, loop, frameId, load;
      currentIndex, cachedIndex, cachedMsg, published, timerActive := 0, None, None, [], true;
      ticks := 0;
      new;
      LoadIndex(0);
    }

    method LoadIndex(idx: nat)
      requires CacheCoherent()
      modifies this`cachedIndex, this`cachedMsg
      ensures CacheCoherent()
      ensures idx < |playlist| ==> (cachedMsg.Some? <==> load(playlist[idx]).Some?)
      ensures idx < |playlist| && cachedMsg.Some? ==> cachedIndex == Some(idx)
    {
      if idx >= |playlist| {
        return;
      }
      if cachedIndex == Some(idx) && cachedMsg.Some? {
        return;
      }
      match load(playlist[idx]) {
        case None =>
          cachedMsg := None;
          cachedIndex := None;
        case Some(cloud) =>
          cachedMsg := Some(Message(cloud, frameId, 0));
          cachedIndex := Some(idx);
      }
    }

    method PublishCached(now: nat)
      requires CacheCoherent()
      modifies this`cachedMsg, this`published
      ensures CacheCoherent()
      ensures published == old(published) + if old(cachedMsg).Some? then [old(cachedMsg).value.(stamp := now)] else []
      ensures cachedMsg.Some? <==> old(cachedMsg).Some?
    {
      if cachedMsg.None? {
        return;
      }
      cachedMsg := Some(cachedMsg.value.(stamp := now));
      published := published + [cachedMsg.value];
    }

    /** What one tick may publish: the entry's frame with the current time. */
    ghost function Fresh(entry: Option<nat>, now: nat): seq<Message<Cloud>>
      requires entry.Some? ==> entry.value < |playlist|
    {
      if entry.None? then []
      else match load(playlist[entry.value])
           case None => []
           case Some(cloud) => [Message(cloud, frameId, now)]
    }

    /** The body of a tick: load the entry at hand, publish what is cached. */
    method ShowCurrent(now: nat)
      requires CacheCoherent() && currentIndex < |playlist|
      modifies this`cachedIndex, this`cachedMsg, this`published
      ensures CacheCoherent()
      ensures published == old(published) + Fresh(Some(currentIndex), now)
      ensures Clouds(published) == Clouds(old(published)) + Shown(load, playlist, Some(currentIndex))
    {
      LoadIndex(currentIndex);
      PublishCached(now);
      ShownIsAppended(old(published), published, load, playlist, currentIndex);
    }

    /** The timer callback. A failed load publishes nothing, never the previous
        frame, and playback goes on with the next entry. */
    method TickPublish(now: nat)
      requires Valid()
      modifies this
      ensures Valid() && ticks == old(ticks) + 1
      ensures published == old(published) + Fresh(EntryOfTick(|playlist|, loop, old(ticks)), now)
    {
      hide Played, Shown;
      ticks := ticks + 1;
      Division.Successor(ticks - 1, |playlist|);
      PlayedNext(load, playlist, loop, ticks);
      if playlist == [] || currentIndex >= |playlist| {
        NothingShown(published, load, playlist);
        return;
      }
      ShowCurrent(now);
      currentIndex := currentIndex + 1;
      if currentIndex >= |playlist| {
        if loop {
          currentIndex := 0;
        } else {
          timerActive := false;
        }
      }
    }
  }

  lemma NothingShown<Cloud>(messages: seq<Message<Cloud>>, load: string -> Option<Cloud>, playlist: seq<string>)
    ensures Clouds(messages) + Shown(load, playlist, None) == Clouds(messages)
  {
  }

  lemma PlayedNext<Cloud>(load: string -> Option<Cloud>, playlist: seq<string>, loop: bool, ticks: nat)
    requires playlist != [] && ticks > 0
    ensures Played(load, playlist, loop, ticks) ==
            Played(load, playlist, loop, ticks - 1) + Shown(load, playlist, EntryOfTick(|playlist|, loop, ticks - 1))
  {
  }

  lemma ShownIsAppended<Cloud>(before: seq<Message<Cloud>>, after: seq<Message<Cloud>>, load: string -> Option<Cloud>,
                               playlist: seq<string>, i: nat)
    requires i < |playlist|
    requires match load(playlist[i])
             case None => after == before
             case Some(cloud) => |after| == |before| + 1 && before <= after && after[|before|].cloud == cloud
    ensures Clouds(after) == Clouds(before) + Shown(load, playlist, Some(i))
  {
  }

  // ------------------------------------------------------- what playback shows

  /** The clouds of the entries that load, in playlist order. */
  function Loaded<Cloud>(load: string -> Option<Cloud>, entries: seq<string>): seq<Cloud> {
    if entries == [] then []
    else (match load(entries[0]) case None => [] case Some(cloud) => [cloud]) + Loaded(load, entries[1..])
  }

  lemma {:induction false} LoadedSplits<Cloud>(load: string -> Option<Cloud>, a: seq<string>, b: seq<string>)
    ensures Loaded(load, a + b) == Loaded(load, a) + Loaded(load, b)
  {
    if a == [] {
      assert a + b == b;
    } else {
      assert (a + b)[1..] == a[1..] + b;
      LoadedSplits(load, a[1..], b);
    }
  }

  lemma LoadedNext<Cloud>(load: string -> Option<Cloud>, playlist: seq<string>, i: nat)
    requires i < |playlist|
    ensures Loaded(load, playlist[..i + 1]) == Loaded(load, playlist[..i]) + Shown(load, playlist, Some(i))
  {
    assert playlist[..i + 1] == playlist[..i] + [playlist[i]];
    LoadedSplits(load, playlist[..i], [playlist[i]]);
    assert [playlist[i]][1..] == [];
  }

  /** Without looping the entries that load are shown once each and in order,
      and then nothing more. */
  lemma {:induction false} PlaysOnce<Cloud>(load: string -> Option<Cloud>, playlist: seq<string>, ticks: nat)
    requires playlist != []
    ensures Played(load, playlist, false, ticks) ==
            Loaded(load, playlist[..if ticks < |playlist| then ticks else |playlist|])
    decreases ticks
  {
    hide Loaded;
    if ticks == 0 {
      assert playlist[..0] == [] && Loaded<Cloud>(load, []) == [] by { NothingLoaded(load); }
    } else {
      PlaysOnce(load, playlist, ticks - 1);
      if ticks - 1 < |playlist| {
        LoadedNext(load, playlist, ticks - 1);
      } else {
        var all := Loaded(load, playlist[..|playlist|]);
        assert all + [] == all;
      }
    }
  }

  lemma NothingLoaded<Cloud>(load: string -> Option<Cloud>)
    ensures Loaded(load, []) == []
  {
  }

  /** Looping repeats one whole pass, failed entries left out each time. */
  lemma {:induction false} LoopRepeats<Cloud>(load: string -> Option<Cloud>, playlist: seq<string>, ticks: nat)
    requires playlist != []
    ensures Played(load, playlist, true, |playlist| + ticks) ==
            Played(load, playlist, false, |playlist|) + Played(load, playlist, true, ticks)
  {
    hide Shown;
    var n := |playlist|;
    if ticks == 0 {
      FirstPass(load, playlist, n);
      assert Played(load, playlist, false, n) + [] == Played(load, playlist, false, n);
    } else {
      LoopRepeats(load, playlist, ticks - 1);
      Division.AddDivisor(ticks - 1, n);
      assert EntryOfTick(n, true, n + ticks - 1) == EntryOfTick(n, true, ticks - 1);
    }
  }

  lemma {:induction false} FirstPass<Cloud>(load: string -> Option<Cloud>, playlist: seq<string>, k: nat)
    requires playlist != [] && k <= |playlist|
    ensures Played(load, playlist, true, k) == Played(load, playlist, false, k)
  {
    if k > 0 {
      FirstPass(load, playlist, k - 1);
      Division.Unique(k - 1, |playlist|, 0, k - 1);
    }
  }
}
