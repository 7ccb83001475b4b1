/** `parse_http_url` of `http_client.cpp`, and the URL spellings it accepts
    (authority syntax of RFC 3986, section 3.2). */
module HttpUrl {
  import opened Prelude

  datatype Url = Url(host: string, port: string, path: string)

  const SCHEME := "http://"
  const DEFAULT_PORT := "80"

  /** Host and port of a non-empty authority. */
  function SplitAuthority(a: string): Option<(string, string)>
    requires a != ""
  {
    if a[0] == '[' then
      match Find(a, ']')
      case None => None
      case Some(end) =>
        if end + 1 < |a| then
          if a[end + 1] != ':' then None else Some((a[1..end], a[end + 2..]))
        else Some((a[1..end], DEFAULT_PORT))
    else
      match FindLast(a, ':')
      case None => Some((a, DEFAULT_PORT))
      case Some(colon) => Some((a[..colon], a[colon + 1..]))
  }

  function SplitRest(rest: string): (string, string) {
    match Find(rest, '/')
    case None => (rest, "/")
    case Some(slash) => (rest[..slash], rest[slash..])
  }

  function ParseRest(rest: string): Option<Url> {
    var (authority, path) := SplitRest(rest);
    if authority == "" then None
    else
      match SplitAuthority(authority)
      case None => None
      case Some((host, port)) => if host == "" || port == "" then None else Some(Url(host, port, path))
  }

  function ParseHttpUrl(url: string): Option<Url> {
    if |url| < |SCHEME| || url[..|SCHEME|] != SCHEME then None
    else if url[|SCHEME|..] == "" then None
    else ParseRest(url[|SCHEME|..])
  }

  // -------------------------------------------------- spellings of a URL

  /** The ways to write an authority: a name or a bracketed address, with a
      port or, for port 80, without. */
  predicate SpellsAuthority(a: string, host: string, port: string) {
    && host != "" && port != ""
    && (|| (a == host && port == DEFAULT_PORT && host[0] != '[' && ':' !in host)
        || (a == host + (":" + port) && host[0] != '[' && ':' !in port)
        || (a == "[" + (host + "]") && port == DEFAULT_PORT && ']' !in host)
        || (a == "[" + (host + ("]:" + port)) && ']' !in host))
  }

  predicate SpellsPath(p: string, path: string) {
    path != "" && path[0] == '/' && (p == path || (p == "" && path == "/"))
  }

  ghost predicate Spells(url: string, u: Url) {
    exists a, p :: url == SCHEME + (a + p) && '/' !in a && SpellsAuthority(a, u.host, u.port) && SpellsPath(p, u.path)
  }

  lemma NamePortSplits(host: string, port: string)
    requires host != "" && host[0] != '[' && ':' !in port
    ensures SplitAuthority(host + (":" + port)) == Some((host, port))
  {
    var a := host + (":" + port);
    assert a[|host| + 1..] == port && a[..|host|] == host;
    LastAt(a, ':', |host|);
  }

  lemma BracketSplits(host: string, rest: string)
    requires ']' !in host
    ensures var a := "[" + (host + ("]" + rest));
            Find(a, ']') == Some(|host| + 1) && a[1..|host| + 1] == host && a[|host| + 2..] == rest
  {
    hide Find;
    var a := "[" + (host + ("]" + rest));
    assert a[..|host| + 1] == "[" + host;
    FirstAt(a, ']', |host| + 1);
  }

  lemma BracketPortSplits(host: string, port: string)
    requires ']' !in host
    ensures SplitAuthority("[" + (host + ("]:" + port))) == Some((host, port))
  {
    hide Find;
    BracketSplits(host, ":" + port);
    BracketColon(host, port);
  }

  lemma BracketColon(host: string, port: string)
    ensures var a := "[" + (host + ("]:" + port)); var n := |host|;
            && a == "[" + (host + ("]" + (":" + port)))
            && |a| > n + 2 && a[0] == '[' && a[n + 2] == ':' && a[n + 3..] == port
  {
    assert "]" + (":" + port) == "]:" + port;
  }

  lemma SpelledAuthoritySplits(a: string, host: string, port: string)
    requires SpellsAuthority(a, host, port)
    ensures a != "" && SplitAuthority(a) == Some((host, port))
  {
    if a == host && port == DEFAULT_PORT && host[0] != '[' && ':' !in host {
    } else if a == host + (":" + port) && host[0] != '[' && ':' !in port {
      NamePortSplits(host, port);
    } else if a == "[" + (host + ("]:" + port)) {
      BracketPortSplits(host, port);
    } else {
      BracketSplits(host, "");
      assert "]" + "" == "]";
    }
  }

  lemma SplitAuthoritySpells(a: string, host: string, port: string)
    requires a != "" && SplitAuthority(a) == Some((host, port)) && host != "" && port != ""
    ensures SpellsAuthority(a, host, port)
  {
    if a[0] == '[' {
      var end := Find(a, ']').value;
      assert host == a[1..end];
      assert ']' !in host by { assert forall k :: 0 <= k < |host| ==> host[k] == a[..end][k + 1]; }
      if end + 1 < |a| {
        assert a == "[" + (host + ("]:" + port));
      } else {
        assert a == "[" + (host + "]");
      }
    } else if ':' in a {
      var colon := FindLast(a, ':').value;
      assert a == a[..colon] + ([a[colon]] + a[colon + 1..]);
    }
  }

  lemma SpelledRestSplits(a: string, p: string, path: string)
    requires '/' !in a && SpellsPath(p, path)
    ensures SplitRest(a + p) == (a, path)
  {
    if p == "" {
      assert a + p == a;
    } else {
      assert (a + p)[..|a|] == a && (a + p)[|a|..] == p;
      FirstAt(a + p, '/', |a|);
    }
  }

  lemma SplitRestSpells(rest: string)
    ensures var (a, path) := SplitRest(rest);
            '/' !in a && exists p :: SpellsPath(p, path) && rest == a + p
  {
    var (a, path) := SplitRest(rest);
    var p := if '/' in rest then path else "";
    assert SpellsPath(p, path) && rest == a + p;
  }

  lemma SpelledParses(url: string, a: string, p: string, u: Url)
    requires url == SCHEME + (a + p) && '/' !in a
    requires SpellsAuthority(a, u.host, u.port) && SpellsPath(p, u.path)
    ensures ParseHttpUrl(url) == Some(u)
  {
    assert url[..|SCHEME|] == SCHEME && url[|SCHEME|..] == a + p;
    SpelledRestSplits(a, p, u.path);
    SpelledAuthoritySplits(a, u.host, u.port);
  }

  /** Exactly the spellings of `u` parse to `u`: printing is inverted for names
      with ports and for bracketed addresses, defaults are filled in, and every
      accepted URL is rebuilt from its parts. */
  lemma ParseInvertsSpelling(url: string, u: Url)
    ensures ParseHttpUrl(url) == Some(u) <==> Spells(url, u)
  {
    hide SplitAuthority, SpellsAuthority, SplitRest;
    if Spells(url, u) {
      var a, p :| url == SCHEME + (a + p) && '/' !in a && SpellsAuthority(a, u.host, u.port) && SpellsPath(p, u.path);
      SpelledParses(url, a, p, u);
    }
    if ParseHttpUrl(url) == Some(u) {
      var rest := url[|SCHEME|..];
      SplitRestSpells(rest);
      var (a, path) := SplitRest(rest);
      var p :| SpellsPath(p, path) && rest == a + p;
      SplitAuthoritySpells(a, u.host, u.port);
      assert url == SCHEME + rest;
    }
  }
}
