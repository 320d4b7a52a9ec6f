// What a host reference means: padding, port, brackets, case and final dots
// (edge/crates/common/src/lib.rs).
module HostNames {
  import opened Text
  import opened Routes
  import opened Registry

  predicate Blank(s: string) {
    forall k :: 0 <= k < |s| ==> IsSpace(s[k])
  }

  /** A name or an IPv4 address, without port, brackets or outer white space. */
  predicate BareHost(h: string) {
    h != [] && ':' !in h && h[0] != '[' && !IsSpace(h[0]) && !IsSpace(h[|h| - 1])
  }

  /** What may stand behind a bare host: white space only, or a port and anything after it. */
  predicate PortOrBlank(after: string) {
    Blank(after) || after[0] == ':'
  }

  lemma {:induction false} TrimLeftPadding(before: string, s: string)
    requires Blank(before) && (s == [] || !IsSpace(s[0]))
    ensures TrimLeft(before + s) == s
  {
    if before == [] {
      assert before + s == s;
    } else {
      assert (before + s)[1..] == before[1..] + s;
      TrimLeftPadding(before[1..], s);
    }
  }

  lemma {:induction false} TrimRightTail(s: string, tail: string)
    requires s != [] && !IsSpace(s[|s| - 1])
    ensures TrimRight(s + tail) == s + TrimRight(tail)
  {
    if tail == [] || !IsSpace(tail[|tail| - 1]) {
      assert tail == [] ==> s + tail == s;
    } else {
      assert (s + tail)[..|s + tail| - 1] == s + tail[..|tail| - 1];
      TrimRightTail(s, tail[..|tail| - 1]);
    }
  }

  lemma {:induction false} TrimRightBlank(s: string)
    requires Blank(s)
    ensures TrimRight(s) == []
  {
    if s != [] {
      TrimRightBlank(s[..|s| - 1]);
    }
  }

  lemma {:induction false} TrimRightHead(s: string)
    requires s != [] && !IsSpace(s[0])
    ensures TrimRight(s) != [] && TrimRight(s)[0] == s[0]
  {
    if IsSpace(s[|s| - 1]) {
      TrimRightHead(s[..|s| - 1]);
    }
  }

  lemma {:induction false} UntilFirst(a: string, c: char, b: string)
    requires c !in a
    ensures Until(a + [c] + b, c) == a
  {
    var s := a + [c] + b;
    if a != [] {
      assert s[1..] == a[1..] + [c] + b;
      UntilFirst(a[1..], c, b);
      assert a == [a[0]] + a[1..];
    }
  }

  /** Outer white space goes, and so does everything from the first colon of a bare host on. */
  lemma PlainHost(before: string, h: string, after: string)
    requires Blank(before) && BareHost(h) && PortOrBlank(after)
    ensures HostWithoutPort(before + h + after) == Some(h)
    ensures NormalizeDomain(before + h + after) == Lower(SkipTrailing(h, '.'))
  {
    assert before + h + after == before + (h + after);
    TrimLeftPadding(before, h + after);
    TrimRightTail(h, after);
    if Blank(after) {
      TrimRightBlank(after);
      assert h + [] == h;
      UntilAbsent(h, ':');
    } else {
      TrimRightHead(after);
      var port := TrimRight(after);
      assert h + port == h + [':'] + port[1..];
      UntilFirst(h, ':', port[1..]);
    }
  }

  lemma HostAlone(h: string)
    requires BareHost(h)
    ensures NormalizeDomain(h) == Lower(SkipTrailing(h, '.'))
  {
    PlainHost([], h, []);
    assert [] + h + [] == h;
  }

  /** The port of a bare host and the white space around it are immaterial. */
  lemma PortIgnored(before: string, h: string, after: string)
    requires Blank(before) && BareHost(h) && PortOrBlank(after)
    ensures NormalizeDomain(before + h + after) == NormalizeDomain(h)
  {
    PlainHost(before, h, after);
    HostAlone(h);
  }

  /** A bracketed address stands for what is between its brackets, whatever follows them. */
  lemma BracketedHost(before: string, v: string, after: string)
    requires Blank(before) && '[' !in v && ']' !in v
    ensures NormalizeDomain(before + ("[" + v + "]") + after) == Lower(SkipTrailing(v, '.'))
  {
    var s := "[" + v + "]";
    assert before + s + after == before + (s + after);
    TrimLeftPadding(before, s + after);
    TrimRightTail(s, after);
    var rest := TrimRight(after);
    assert s + rest == ("[" + v) + [']'] + rest;
    UntilFirst("[" + v, ']', rest);
    assert ("[" + v)[1..] == v;
    assert SkipLeading(v, '[') == v;
  }

  predicate Dots(s: string) {
    forall k :: 0 <= k < |s| ==> s[k] == '.'
  }

  lemma {:induction false} DotsSkipped(s: string, dots: string)
    requires Dots(dots)
    ensures SkipTrailing(s + dots, '.') == SkipTrailing(s, '.')
  {
    if dots == [] {
      assert s + dots == s;
    } else {
      assert (s + dots)[..|s + dots| - 1] == s + dots[..|dots| - 1];
      DotsSkipped(s, dots[..|dots| - 1]);
    }
  }

  lemma DotsBare(h: string, dots: string)
    requires BareHost(h) && Dots(dots)
    ensures BareHost(h + dots)
  {
    var s := h + dots;
    assert s[0] == h[0];
    assert s[|s| - 1] == if dots == [] then h[|h| - 1] else '.';
  }

  /** Final dots of a bare host are immaterial. */
  lemma DotsIgnored(h: string, dots: string)
    requires BareHost(h) && Dots(dots)
    ensures NormalizeDomain(h + dots) == NormalizeDomain(h)
  {
    DotsBare(h, dots);
    HostAlone(h + dots);
    HostAlone(h);
    DotsSkipped(h, dots);
  }

  /** A bare lower-case name without a final dot is its own normal form. */
  lemma NameKept(h: string)
    requires BareHost(h) && Lower(h) == h && h[|h| - 1] != '.'
    ensures NormalizeDomain(h) == h
  {
    HostAlone(h);
  }

  /** A reference of white space only names no host and comes back as it is. */
  lemma BlankKept(s: string)
    requires Blank(s)
    ensures HostWithoutPort(s).None? && NormalizeDomain(s) == s
  {
    TrimLeftPadding(s, []);
    assert s + [] == s;
    assert Lower(s) == s;
  }

  // ----- Letter case -----

  lemma LowerEnds(s: string)
    requires s != []
    ensures Lower(s)[1..] == Lower(s[1..]) && Lower(s)[..|s| - 1] == Lower(s[..|s| - 1])
  {
  }

  /** Neither a white-space character nor a mark of the syntax is a letter. */
  lemma LowerCharKeeps(x: char, c: char)
    requires !('A' <= c <= 'Z') && !('a' <= c <= 'z')
    ensures IsSpace(LowerChar(x)) == IsSpace(x)
    ensures LowerChar(x) == c <==> x == c
  {
  }

  lemma {:induction false} LowerTrimLeft(s: string)
    ensures TrimLeft(Lower(s)) == Lower(TrimLeft(s))
  {
    if s != [] {
      LowerEnds(s);
      LowerCharKeeps(s[0], '.');
      LowerTrimLeft(s[1..]);
    }
  }

  lemma {:induction false} LowerTrimRight(s: string)
    ensures TrimRight(Lower(s)) == Lower(TrimRight(s))
  {
    if s != [] {
      LowerEnds(s);
      LowerCharKeeps(s[|s| - 1], '.');
      LowerTrimRight(s[..|s| - 1]);
    }
  }

  lemma {:induction false} LowerUntil(s: string, c: char)
    requires !('A' <= c <= 'Z') && !('a' <= c <= 'z')
    ensures Until(Lower(s), c) == Lower(Until(s, c))
  {
    if s != [] {
      LowerEnds(s);
      LowerCharKeeps(s[0], c);
      LowerUntil(s[1..], c);
      assert Lower([s[0]] + Until(s[1..], c)) == [LowerChar(s[0])] + Lower(Until(s[1..], c));
    }
  }

  lemma {:induction false} LowerSkipLeading(s: string, c: char)
    requires !('A' <= c <= 'Z') && !('a' <= c <= 'z')
    ensures SkipLeading(Lower(s), c) == Lower(SkipLeading(s, c))
  {
    if s != [] {
      LowerEnds(s);
      LowerCharKeeps(s[0], c);
      LowerSkipLeading(s[1..], c);
    }
  }

  lemma {:induction false} LowerSkipTrailing(s: string, c: char)
    requires !('A' <= c <= 'Z') && !('a' <= c <= 'z')
    ensures SkipTrailing(Lower(s), c) == Lower(SkipTrailing(s, c))
  {
    if s != [] {
      LowerEnds(s);
      LowerCharKeeps(s[|s| - 1], c);
      LowerSkipTrailing(s[..|s| - 1], c);
    }
  }

  lemma LowerHost(s: string)
    ensures var host, lower := HostWithoutPort(s), HostWithoutPort(Lower(s));
            if host.None? then lower.None? else lower == Some(Lower(host.value))
  {
    LowerTrimLeft(s);
    LowerTrimRight(TrimLeft(s));
    var trimmed := TrimText(s);
    LowerUntil(trimmed, ':');
    LowerUntil(trimmed, ']');
    LowerSkipLeading(Until(trimmed, ']'), '[');
    if trimmed != [] {
      LowerCharKeeps(trimmed[0], '[');
    }
  }

  /** Letter case is immaterial in every host reference. */
  lemma CaseIgnored(s: string)
    ensures NormalizeDomain(Lower(s)) == NormalizeDomain(s)
  {
    var host := HostWithoutPort(s);
    var base := if host.Some? then host.value else s;
    LowerHost(s);
    LowerSkipTrailing(base, '.');
    var name := SkipTrailing(base, '.');
    assert Lower(Lower(name)) == Lower(name);
  }

  // ----- Lookups -----

  /** A request with a port, padding, final dots or other letter case finds what the bare name finds. */
  lemma FindIgnoresSpelling(routes: seq<Route>, before: string, h: string, dots: string, after: string, path: Bytes)
    requires Blank(before) && BareHost(h) && Dots(dots) && PortOrBlank(after)
    ensures ScanFind(routes, before + (h + dots) + after, path) == ScanFind(routes, Lower(h), path)
  {
    DotsBare(h, dots);
    PortIgnored(before, h + dots, after);
    DotsIgnored(h, dots);
    CaseIgnored(h);
  }

  lemma BracketsAlone(v: string)
    requires '[' !in v && ']' !in v
    ensures NormalizeDomain("[" + v + "]") == Lower(SkipTrailing(v, '.'))
  {
    BracketedHost([], v, []);
    var s := "[" + v + "]";
    assert [] + s + [] == s;
  }

  /** A bracketed address finds what its brackets alone find, whatever the padding and the port. */
  lemma FindIgnoresBracketPort(routes: seq<Route>, before: string, v: string, after: string, path: Bytes)
    requires Blank(before) && '[' !in v && ']' !in v
    ensures ScanFind(routes, before + ("[" + v + "]") + after, path) == ScanFind(routes, "[" + v + "]", path)
  {
    BracketedHost(before, v, after);
    BracketsAlone(v);
  }
}
