/** Parent-domain resolution for the Twitch embeds: normalising one candidate
    (`processParentDomain`) and collecting the ordered candidate list from the
    request (`getParentDomains`). Hostnames parsed from the Origin and Referer
    URLs arrive already extracted; "" stands for an absent value. */
module ParentDomain {
  import opened Text

  // ---------------------------------------------------------------------------
  // processParentDomain
  // ---------------------------------------------------------------------------

  /** Position `i` starts a port suffix: `s[i]` is ':' and everything after it
      is one or more digits (the regular expression `:[\d]+$`). */
  predicate PortAt(s: string, i: int)
  {
    0 <= i < |s| - 1 && s[i] == ':' && AllDigits(s[i + 1..])
  }

  /** Length of the longest run of digits that ends `s`. */
  function TrailingDigits(s: string): (k: nat)
    ensures k <= |s|
    ensures AllDigits(s[|s| - k..])
    ensures k < |s| ==> !IsDigit(s[|s| - k - 1])
  {
    if s != [] && IsDigit(s[|s| - 1]) then
      var t := s[..|s| - 1];
      var k' := TrailingDigits(t);
      assert s[|s| - (k' + 1)..] == t[|t| - k'..] + [s[|s| - 1]];
      assert k' < |t| ==> s[|s| - k' - 2] == t[|t| - k' - 1];
      k' + 1
    else 0
  }

  /** A port suffix can start only where the trailing digit run begins. */
  lemma PortAtTrailingDigits(s: string, i: int)
    requires PortAt(s, i)
    ensures TrailingDigits(s) == |s| - i - 1
  {
    var k := TrailingDigits(s);
    assert forall j :: i < j < |s| ==> IsDigit(s[j]) by {
      forall j | i < j < |s| ensures IsDigit(s[j]) {
        assert s[i + 1..][j - (i + 1)] == s[j];
      }
    }
    assert forall j :: |s| - k <= j < |s| ==> IsDigit(s[j]) by {
      forall j | |s| - k <= j < |s| ensures IsDigit(s[j]) {
        assert s[|s| - k..][j - (|s| - k)] == s[j];
      }
    }
  }

  /** `s.replace(/:[\d]+$/, "")`: drops a trailing `:<digits>` port, if any. */
  function StripPort(s: string): (r: string)
    ensures forall i :: PortAt(s, i) ==> r == s[..i]
    ensures (forall i :: !PortAt(s, i)) ==> r == s
  {
    var k := TrailingDigits(s);
    forall i | PortAt(s, i) ensures k == |s| - i - 1 {
      PortAtTrailingDigits(s, i);
    }
    if 0 < k < |s| && s[|s| - k - 1] == ':' then
      assert PortAt(s, |s| - k - 1);
      s[..|s| - k - 1]
    else s
  }

  /** `s.replace(/^https?:\/\//, "")`: drops one leading `http://` or `https://`. */
  function StripScheme(s: string): (r: string)
    ensures IsPrefix("https://", s) ==> s == "https://" + r
    ensures IsPrefix("http://", s) ==> s == "http://" + r
    ensures !IsPrefix("http://", s) && !IsPrefix("https://", s) ==> r == s
  {
    if IsPrefix("https://", s) then
      assert s == s[..8] + s[8..];
      assert s[..7][4] == 's';
      s[8..]
    else if IsPrefix("http://", s) then
      assert s == s[..7] + s[7..];
      s[7..]
    else s
  }

  /** `processParentDomain`: port first, then scheme. The result is a piece
      cut out of the input, so it is never longer. */
  function ProcessParentDomain(p: string): (r: string)
    ensures p == "" ==> r == ""
    ensures |r| <= |p|
    ensures exists i, j :: 0 <= i <= j <= |p| && r == p[i..j]
  {
    if p == "" then
      assert "" == p[0..0];
      ""
    else
      var t := StripPort(p);
      var m :| 0 <= m <= |p| && t == p[..m];
      var r := StripScheme(t);
      var off := |t| - |r|;
      assert r == t[off..];
      assert r == p[off..m];
      r
  }

  /** A candidate with neither a port suffix nor a scheme comes back unchanged. */
  lemma ProcessUnchanged(p: string)
    requires forall i :: !PortAt(p, i)
    requires !IsPrefix("http://", p) && !IsPrefix("https://", p)
    ensures ProcessParentDomain(p) == p
  {
  }

  /** Both the port and the scheme of a full origin are removed. */
  lemma ProcessFullOrigin()
    ensures ProcessParentDomain("https://a.com:8080") == "a.com"
  {
    var p := "https://a.com:8080";
    assert PortAt(p, 13) by { assert p[14..] == "8080"; }
    assert StripPort(p) == "https://a.com";
    assert IsPrefix("https://", "https://a.com");
  }

  // ---------------------------------------------------------------------------
  // getParentDomains
  // ---------------------------------------------------------------------------

  /** `parent ? parent.split(",") : []`. */
  function ProvidedDomains(parent: string): (r: seq<string>)
    ensures parent == "" ==> r == []
    ensures parent != "" ==> Join(r, [',']) == parent
    ensures forall i :: 0 <= i < |r| ==> ',' !in r[i]
  {
    if parent == "" then []
    else
      SplitThenJoin(parent, ',');
      Split(parent, ',')
  }

  /** `host.split(":")[0]`: the Host header up to its first colon. */
  function HostDomain(host: string): (r: string)
    ensures IsPrefix(r, host) && ':' !in r
    ensures |r| < |host| ==> host[|r|] == ':'
  {
    Split(host, ':')[0]
  }

  /** Appends `x` when it is non-empty and not yet present. */
  function AddIfNew(xs: seq<string>, x: string): seq<string>
  {
    if x != "" && x !in xs then xs + [x] else xs
  }

  /** Appends each of `extras`, in order, under the duplicate check. */
  function AppendNew(xs: seq<string>, extras: seq<string>): seq<string>
    decreases |extras|
  {
    if extras == [] then xs else AppendNew(AddIfNew(xs, extras[0]), extras[1..])
  }

  /** The raw candidate list: the provided values, then the Origin hostname
      whenever it is non-empty, then Referer, Host and the default, each only
      when non-empty and not already in the list. */
  function Candidates(provided: seq<string>, origin: string, referer: string, host: string, dflt: string): (c: seq<string>)
    ensures |provided| <= |c| <= |provided| + 4
    ensures c[..|provided|] == provided
  {
    var base := provided + (if origin != "" then [origin] else []);
    AppendNewExtends(base, [referer, host, dflt]);
    assert AppendNew(base, [referer, host, dflt])[..|provided|]
        == AppendNew(base, [referer, host, dflt])[..|base|][..|provided|];
    AppendNew(base, [referer, host, dflt])
  }

  lemma CandidatesUnfold(base: seq<string>, referer: string, host: string, dflt: string)
    ensures AppendNew(base, [referer, host, dflt]) == AddIfNew(AddIfNew(AddIfNew(base, referer), host), dflt)
  {
    var b1 := AddIfNew(base, referer);
    var b2 := AddIfNew(b1, host);
    assert [referer, host, dflt][1..] == [host, dflt];
    assert AppendNew(base, [referer, host, dflt]) == AppendNew(b1, [host, dflt]);
    assert [host, dflt][1..] == [dflt];
    assert AppendNew(b1, [host, dflt]) == AppendNew(b2, [dflt]);
    assert [dflt][1..] == [];
    assert AppendNew(b2, [dflt]) == AppendNew(AddIfNew(b2, dflt), []);
  }

  /** `domains.map(processParentDomain)`. */
  function NormalizeAll(xs: seq<string>): (r: seq<string>)
    ensures |r| == |xs|
    ensures forall i :: 0 <= i < |xs| ==> r[i] == ProcessParentDomain(xs[i])
  {
    seq(|xs|, i requires 0 <= i < |xs| => ProcessParentDomain(xs[i]))
  }

  /** `.filter((d) => d)`: keeps the non-empty strings, in order. */
  function DropEmpty(xs: seq<string>): (r: seq<string>)
    ensures |r| <= |xs|
    ensures forall x :: x in r <==> x in xs && x != ""
  {
    if xs == [] then []
    else (if xs[0] == "" then [] else [xs[0]]) + DropEmpty(xs[1..])
  }

  /** What `getParentDomains` returns for the given request hints. */
  function ParentDomains(parent: string, origin: string, referer: string, hostHeader: string, dflt: string): (r: seq<string>)
    ensures "" !in r
    ensures |r| <= |ProvidedDomains(parent)| + 4
  {
    DropEmpty(NormalizeAll(Candidates(ProvidedDomains(parent), origin, referer, HostDomain(hostHeader), dflt)))
  }

  /** `getParentDomains`: builds the candidate list with guarded pushes, then
      normalises every entry and drops the empty ones. */
  method GetParentDomains(parent: string, origin: string, referer: string, hostHeader: string, dflt: string)
    returns (result: seq<string>)
    ensures result == ParentDomains(parent, origin, referer, hostHeader, dflt)
    ensures "" !in result
  {
    var provided := if parent != "" then Split(parent, ',') else [];
    var hostDomain := if hostHeader != "" then Split(hostHeader, ':')[0] else "";
    var domains := provided;
    if origin != "" {
      domains := domains + [origin];
    }
    ghost var base := domains;
    assert base == provided + (if origin != "" then [origin] else []);
    if referer != "" && referer !in domains {
      domains := domains + [referer];
    }
    assert domains == AddIfNew(base, referer);
    if hostDomain != "" && hostDomain !in domains {
      domains := domains + [hostDomain];
    }
    assert domains == AddIfNew(AddIfNew(base, referer), hostDomain);
    if dflt != "" && dflt !in domains {
      domains := domains + [dflt];
    }
    assert domains == AddIfNew(AddIfNew(AddIfNew(base, referer), hostDomain), dflt);
    CandidatesUnfold(base, referer, hostDomain, dflt);
    assert provided == ProvidedDomains(parent);
    assert hostDomain == HostDomain(hostHeader);
    result := DropEmpty(NormalizeAll(domains));
  }

  // ---------------------------------------------------------------------------
  // Properties of the candidate list and the result
  // ---------------------------------------------------------------------------

  lemma {:induction false} AppendNewExtends(xs: seq<string>, extras: seq<string>)
    ensures |AppendNew(xs, extras)| <= |xs| + |extras|
    ensures IsPrefix(xs, AppendNew(xs, extras))
    decreases |extras|
  {
    if extras != [] {
      AppendNewExtends(AddIfNew(xs, extras[0]), extras[1..]);
    }
  }


  /** `xs` is `ys` with some entries left out, the rest kept in order. */
  predicate IsSubsequence(xs: seq<string>, ys: seq<string>)
    decreases |ys|
  {
    if xs == [] then true
    else if ys == [] then false
    else (xs[0] == ys[0] && IsSubsequence(xs[1..], ys[1..])) || IsSubsequence(xs, ys[1..])
  }

  /** What the guarded appends add is a selection of `extras`, in their order. */
  lemma {:induction false} AppendNewInOrder(xs: seq<string>, extras: seq<string>)
    ensures |xs| <= |AppendNew(xs, extras)|
    ensures IsSubsequence(AppendNew(xs, extras)[|xs|..], extras)
    decreases |extras|
  {
    AppendNewExtends(xs, extras);
    if extras != [] {
      var ys := AddIfNew(xs, extras[0]);
      var zs := AppendNew(ys, extras[1..]);
      AppendNewInOrder(ys, extras[1..]);
      AppendNewExtends(ys, extras[1..]);
      var t := zs[|xs|..];
      if ys == xs {
        assert t == [] || IsSubsequence(t, extras[1..]);
      } else {
        assert zs[..|ys|] == ys;
        assert t[0] == extras[0];
        assert t[1..] == zs[|ys|..];
      }
    }
  }

  lemma {:induction false} AppendNewMembers(xs: seq<string>, extras: seq<string>, x: string)
    ensures x in AppendNew(xs, extras) <==> x in xs || (x != "" && x in extras)
    decreases |extras|
  {
    if extras != [] {
      AppendNewMembers(AddIfNew(xs, extras[0]), extras[1..], x);
      assert extras == [extras[0]] + extras[1..];
    }
  }

  /** How often `x` occurs after the guarded appends: an entry already present
      is never added again, a new non-empty one is added exactly once. */
  lemma {:induction false} AppendNewCount(xs: seq<string>, extras: seq<string>, x: string)
    ensures multiset(AppendNew(xs, extras))[x] ==
              if x in xs || x == "" || x !in extras then multiset(xs)[x] else 1
    decreases |extras|
  {
    if extras != [] {
      var ys := AddIfNew(xs, extras[0]);
      AppendNewCount(ys, extras[1..], x);
      assert extras == [extras[0]] + extras[1..];
      if x == extras[0] && x != "" && x !in xs {
        assert multiset(ys)[x] == 1;
      }
    }
  }

  /** Candidate order: the provided values come first, as given, followed by
      the Origin hostname whenever it is non-empty, and then by some of
      Referer, Host and default, in that order; at most four entries are
      added to the provided values. */
  lemma CandidatesOrder(provided: seq<string>, origin: string, referer: string, host: string, dflt: string)
    ensures var c := Candidates(provided, origin, referer, host, dflt);
      var n := |provided| + (if origin != "" then 1 else 0);
      n <= |c| <= |provided| + 4 &&
      c[..|provided|] == provided &&
      (origin != "" ==> c[|provided|] == origin) &&
      IsSubsequence(c[n..], [referer, host, dflt])
  {
    var base := provided + (if origin != "" then [origin] else []);
    AppendNewExtends(base, [referer, host, dflt]);
    AppendNewInOrder(base, [referer, host, dflt]);
    var c := Candidates(provided, origin, referer, host, dflt);
    assert c[..|base|] == base;
    assert c[..|provided|] == c[..|base|][..|provided|];
  }

  /** A string is a candidate exactly when it is one of the provided values or
      one of the non-empty header/default values. */
  lemma CandidatesMembers(provided: seq<string>, origin: string, referer: string, host: string, dflt: string, x: string)
    ensures x in Candidates(provided, origin, referer, host, dflt) <==>
      x in provided || (x != "" && (x == origin || x == referer || x == host || x == dflt))
  {
    AppendNewMembers(provided + (if origin != "" then [origin] else []), [referer, host, dflt], x);
  }

  /** Referer, Host and default are checked against the raw list: one that is
      not already there is added exactly once, one that is adds nothing. */
  lemma CandidatesExtrasDeduplicated(provided: seq<string>, origin: string, referer: string, host: string, dflt: string, x: string)
    requires x != "" && (x == referer || x == host || x == dflt)
    ensures var base := provided + (if origin != "" then [origin] else []);
      multiset(Candidates(provided, origin, referer, host, dflt))[x] ==
        if x in base then multiset(base)[x] else 1
  {
    AppendNewCount(provided + (if origin != "" then [origin] else []), [referer, host, dflt], x);
  }

  /** The Origin hostname is pushed with no duplicate check: when it is also a
      provided value it occurs once more than among the provided values. */
  lemma OriginNotDeduplicated(provided: seq<string>, origin: string, referer: string, host: string, dflt: string)
    requires origin != ""
    ensures multiset(Candidates(provided, origin, referer, host, dflt))[origin] == multiset(provided)[origin] + 1
  {
    var base := provided + [origin];
    AppendNewCount(base, [referer, host, dflt], origin);
    assert multiset(base) == multiset(provided) + multiset{origin};
  }

  lemma NormalizeAllAppend(a: seq<string>, b: seq<string>)
    ensures NormalizeAll(a + b) == NormalizeAll(a) + NormalizeAll(b)
  {
    assert forall i :: 0 <= i < |a| ==> (a + b)[i] == a[i];
    assert forall i :: |a| <= i < |a| + |b| ==> (a + b)[i] == b[i - |a|];
  }

  lemma {:induction false} DropEmptyAppend(a: seq<string>, b: seq<string>)
    ensures DropEmpty(a + b) == DropEmpty(a) + DropEmpty(b)
    decreases |a|
  {
    if a != [] {
      DropEmptyAppend(a[1..], b);
      assert (a + b)[0] == a[0];
      assert (a + b)[1..] == a[1..] + b;
      var h := if a[0] == "" then [] else [a[0]];
      assert DropEmpty(a + b) == h + DropEmpty(a[1..] + b);
      assert DropEmpty(a) == h + DropEmpty(a[1..]);
    } else {
      assert a + b == b;
    }
  }

  lemma {:induction false} DropEmptyAllNonEmpty(xs: seq<string>)
    requires "" !in xs
    ensures DropEmpty(xs) == xs
    decreases |xs|
  {
    if xs != [] {
      DropEmptyAllNonEmpty(xs[1..]);
      assert [xs[0]] + xs[1..] == xs;
    }
  }

  /** The result is exactly the normalised candidates minus empty strings: it
      never holds "", is never longer than the candidate list, and a string is
      in it exactly when it is the non-empty normal form of some candidate. */
  lemma ParentDomainsShape(parent: string, origin: string, referer: string, hostHeader: string, dflt: string, d: string)
    ensures var c := Candidates(ProvidedDomains(parent), origin, referer, HostDomain(hostHeader), dflt);
      var r := ParentDomains(parent, origin, referer, hostHeader, dflt);
      "" !in r && |r| <= |c| &&
      (d in r <==> d != "" && exists i :: 0 <= i < |c| && ProcessParentDomain(c[i]) == d)
  {
    var c := Candidates(ProvidedDomains(parent), origin, referer, HostDomain(hostHeader), dflt);
    var n := NormalizeAll(c);
    assert d in n <==> exists i :: 0 <= i < |c| && ProcessParentDomain(c[i]) == d by {
      if d in n {
        var i :| 0 <= i < |n| && n[i] == d;
        assert ProcessParentDomain(c[i]) == d;
      }
      if exists i :: 0 <= i < |c| && ProcessParentDomain(c[i]) == d {
        var i :| 0 <= i < |c| && ProcessParentDomain(c[i]) == d;
        assert n[i] == d;
      }
    }
  }

  /** The provided values lead the result: the result starts with their
      non-empty normal forms, in the order given. */
  lemma ProvidedLead(parent: string, origin: string, referer: string, hostHeader: string, dflt: string)
    ensures var p := DropEmpty(NormalizeAll(ProvidedDomains(parent)));
      var r := ParentDomains(parent, origin, referer, hostHeader, dflt);
      |p| <= |r| && r[..|p|] == p
  {
    var provided := ProvidedDomains(parent);
    var c := Candidates(provided, origin, referer, HostDomain(hostHeader), dflt);
    CandidatesOrder(provided, origin, referer, HostDomain(hostHeader), dflt);
    var rest := c[|provided|..];
    assert c == provided + rest;
    NormalizeAllAppend(provided, rest);
    var p := DropEmpty(NormalizeAll(provided));
    DropEmptyAppend(NormalizeAll(provided), NormalizeAll(rest));
    assert ParentDomains(parent, origin, referer, hostHeader, dflt) == p + DropEmpty(NormalizeAll(rest));
  }

  /** A bare hostname (no colon, no scheme) is its own normal form. */
  lemma BareDomainUnchanged(x: string)
    requires ':' !in x
    requires !IsPrefix("http://", x) && !IsPrefix("https://", x)
    ensures ProcessParentDomain(x) == x
  {
    forall i | 0 <= i < |x| ensures !PortAt(x, i) {
      assert x[i] in x;
    }
  }

  lemma ProvidedExample()
    ensures ProvidedDomains("a.com:8080") == ["a.com:8080"]
  {
    SplitWithoutSeparator("a.com:8080", ',');
  }

  lemma HostExample()
    ensures HostDomain("c.com:3000") == "c.com"
  {
    assert "c.com:3000" == "c.com" + [':'] + "3000";
    SplitAfterPiece("c.com", ':', "3000");
  }

  lemma PortExample()
    ensures ProcessParentDomain("a.com:8080") == "a.com"
  {
    var p := "a.com:8080";
    assert PortAt(p, 5) by { assert p[6..] == "8080"; }
    assert StripPort(p) == "a.com";
  }

  lemma CandidatesExample()
    ensures Candidates(["a.com:8080"], "a.com", "b.com", "c.com", "d.com") ==
              ["a.com:8080", "a.com", "b.com", "c.com", "d.com"]
  {
  }

  lemma BareDomainsExample()
    ensures ProcessParentDomain("a.com") == "a.com" && ProcessParentDomain("b.com") == "b.com"
    ensures ProcessParentDomain("c.com") == "c.com" && ProcessParentDomain("d.com") == "d.com"
  {
    BareDomainUnchanged("a.com");
    BareDomainUnchanged("b.com");
    BareDomainUnchanged("c.com");
    BareDomainUnchanged("d.com");
  }

  lemma NormalizedExample(c: seq<string>)
    requires c == ["a.com:8080", "a.com", "b.com", "c.com", "d.com"]
    ensures NormalizeAll(c) == ["a.com", "a.com", "b.com", "c.com", "d.com"]
  {
    PortExample();
    BareDomainsExample();
  }

  lemma DuplicateCandidates(parent: string, origin: string, referer: string, hostHeader: string, dflt: string)
    requires parent == "a.com:8080" && origin == "a.com" && referer == "b.com"
    requires hostHeader == "c.com:3000" && dflt == "d.com"
    ensures Candidates(ProvidedDomains(parent), origin, referer, HostDomain(hostHeader), dflt) ==
              ["a.com:8080", "a.com", "b.com", "c.com", "d.com"]
  {
    ProvidedExample();
    HostExample();
    CandidatesExample();
  }

  /** Duplicates are checked before normalisation, so a provided value with a
      port and the Origin hostname both survive as the same domain. */
  lemma DuplicateAfterNormalisation(parent: string, origin: string, referer: string, hostHeader: string, dflt: string)
    requires parent == "a.com:8080" && origin == "a.com" && referer == "b.com"
    requires hostHeader == "c.com:3000" && dflt == "d.com"
    ensures ParentDomains(parent, origin, referer, hostHeader, dflt) ==
              ["a.com", "a.com", "b.com", "c.com", "d.com"]
  {
    DuplicateCandidates(parent, origin, referer, hostHeader, dflt);
    var c := Candidates(ProvidedDomains(parent), origin, referer, HostDomain(hostHeader), dflt);
    NormalizedExample(c);
    DropEmptyAllNonEmpty(NormalizeAll(c));
  }

  /** With no hints at all the result is empty. */
  lemma NoHintsNoDomains()
    ensures ParentDomains("", "", "", "", "") == []
  {
    assert Split("", ':') == [""];
  }
}
