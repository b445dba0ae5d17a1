/** Path handlers of the stream engine: how `addXPathHandler` compiles a path
    string into (namespace, name) segments, and when a compiled path matches a
    dispatched stanza. */
module XPath {
  import opened Util
  import opened XmlObj

  /** One compiled segment; ns "" stands for PHP null (any namespace). */
  datatype Seg = Seg(ns: string, name: string)

  // ---------------------------------------------------------------------------
  // The pattern /\(?{[^\}]+}\)?(\/?)[^\/]+/ of addXPathHandler

  /** End of `(\/?)[^\/]+` matched from position a, or 0 when it cannot match. */
  function Tail(s: string, a: nat): (e: nat)
    requires a <= |s|
    ensures e == 0 || a < e <= |s|
  {
    if a < |s| && s[a] == '/' && RunUntil(s[a + 1..], '/') > 0 then a + 1 + RunUntil(s[a + 1..], '/')
    else if RunUntil(s[a..], '/') > 0 then a + RunUntil(s[a..], '/')
    else 0
  }

  /** End of `\)?(\/?)[^\/]+` from position a: the closing parenthesis is taken
      when the rest can then match, and left for `[^\/]+` otherwise. */
  function AfterBrace(s: string, a: nat): (e: nat)
    requires a <= |s|
    ensures e == 0 || a < e <= |s|
  {
    if a < |s| && s[a] == ')' && Tail(s, a + 1) > 0 then Tail(s, a + 1) else Tail(s, a)
  }

  /** Length of the match anchored at the start of s; 0 when there is none. */
  function MatchLen(s: string): (n: nat)
    ensures n <= |s|
  {
    var q := if |s| >= 2 && s[0] == '(' && s[1] == '{' then 1 else 0;
    if q >= |s| || s[q] != '{' then 0
    else
      var c := RunUntil(s[q + 1..], '}');
      if c == 0 || q + 1 + c == |s| then 0
      else AfterBrace(s, q + c + 2)
  }

  /** `preg_match_all`: the non-overlapping matches, scanning left to right. */
  function Matches(s: string): seq<string>
    decreases |s|
  {
    if s == [] then []
    else
      var n := MatchLen(s);
      if n > 0 then [s[..n]] + Matches(s[n..]) else Matches(s[1..])
  }

  /** `list($l, $r) = preg_split("/}/", $tag)`: a tag with text after its first
      '}' gives (l without its first character, r); otherwise (null, l). */
  function SegOf(tag: string): Seg {
    var parts := Split(tag, '}');
    var l := parts[0];
    var r := if |parts| >= 2 then parts[1] else "";
    if r != "" then Seg(if |l| >= 1 then l[1..] else "", r) else Seg("", l)
  }

  function SegsOf(tags: seq<string>): (r: seq<Seg>)
    ensures |r| == |tags|
  {
    if tags == [] then [] else [SegOf(tags[0])] + SegsOf(tags[1..])
  }

  /** The path `addXPathHandler` stores: one segment per match, or the whole
      string as one segment when nothing matches. */
  function Compile(xpath: string): (r: seq<Seg>)
    ensures |r| >= 1
  {
    var tags := Matches(xpath);
    if tags == [] then [SegOf(xpath)] else SegsOf(tags)
  }

  /** The loop of `addXPathHandler`: one segment per tag, in order. */
  method CompilePath(xpath: string) returns (path: seq<Seg>)
    ensures path == Compile(xpath)
  {
    var tags := Matches(xpath);
    if tags == [] {
      tags := [xpath];
    }
    path := [];
    for i := 0 to |tags|
      invariant path == SegsOf(tags[..i])
    {
      SegsOfStep(tags, i);
      path := path + [SegOf(tags[i])];
    }
    assert tags[..|tags|] == tags;
  }

  lemma SegsOfStep(tags: seq<string>, i: nat)
    requires i < |tags|
    ensures SegsOf(tags[..i + 1]) == SegsOf(tags[..i]) + [SegOf(tags[i])]
  {
    assert tags[..i + 1] == tags[..i] + [tags[i]];
    SegsOfSnoc(tags[..i], tags[i]);
  }

  lemma {:induction false} SegsOfSnoc(tags: seq<string>, tag: string)
    ensures SegsOf(tags + [tag]) == SegsOf(tags) + [SegOf(tag)]
  {
    if tags == [] {
      assert [tag][1..] == [];
    } else {
      assert (tags + [tag])[1..] == tags[1..] + [tag];
      SegsOfSnoc(tags[1..], tag);
    }
  }

  // ---------------------------------------------------------------------------
  // Rendering paths, and what Compile makes of them

  /** A segment that `{ns}name` spells unambiguously. */
  predicate WellFormed(g: Seg) {
    && |g.ns| >= 1 && NoChar(g.ns, '}')
    && |g.name| >= 1 && NoChar(g.name, '/') && NoChar(g.name, '}') && g.name[0] != ')'
  }

  function Spell(g: Seg): string {
    "{" + g.ns + "}" + g.name
  }

  /** The spelling of each segment. */
  function Spells(path: seq<Seg>): (r: seq<string>)
    ensures |r| == |path|
  {
    if path == [] then [] else [Spell(path[0])] + Spells(path[1..])
  }

  /** `{ns1}name1/{ns2}name2/...`. */
  function Render(path: seq<Seg>): string
    requires |path| >= 1
  {
    if |path| == 1 then Spell(path[0]) else Spell(path[0]) + "/" + Render(path[1..])
  }

  /** At an opening brace, the match is decided by the first closing brace. */
  lemma MatchLenAtBrace(s: string)
    requires |s| >= 1 && s[0] == '{'
    ensures MatchLen(s) ==
      var c := RunUntil(s[1..], '}');
      if c == 0 || 1 + c == |s| then 0 else AfterBrace(s, c + 2)
  {
  }

  /** Where no brace starts, nothing matches. */
  lemma MatchLenNoBrace(s: string)
    requires s != [] && s[0] != '{' && (|s| < 2 || s[0] != '(' || s[1] != '{')
    ensures MatchLen(s) == 0
  {
  }

  lemma MatchesSkip(s: string)
    requires s != [] && MatchLen(s) == 0
    ensures Matches(s) == Matches(s[1..])
  {
  }

  lemma MatchesTake(s: string)
    requires s != [] && MatchLen(s) > 0
    ensures Matches(s) == [s[..MatchLen(s)]] + Matches(s[MatchLen(s)..])
  {
  }

  lemma TailRun(s: string, a: nat)
    requires a < |s| && s[a] != '/' && s[a] != ')'
    ensures AfterBrace(s, a) == a + RunUntil(s[a..], '/')
  {
    assert s[a..][0] == s[a];
  }

  lemma SpellMatch(g: Seg, rest: string)
    requires WellFormed(g)
    requires rest == [] || rest[0] == '/'
    ensures MatchLen(Spell(g) + rest) == |Spell(g)|
  {
    var s := Spell(g) + rest;
    SpellParts(g.ns, g.name, rest);
    RunUntilAt(g.ns, '}', "}" + (g.name + rest));
    RunUntilAt(g.name, '/', rest);
    SpellMatchAt(s, |g.ns|, |g.name|);
  }

  /** Where the pieces of `{ns}name` followed by more text stand. */
  lemma SpellParts(ns: string, name: string, rest: string)
    requires name != []
    ensures var s := Spell(Seg(ns, name)) + rest;
      && |s| == |ns| + |name| + |rest| + 2 && s[0] == '{'
      && s[1..] == ns + ("}" + (name + rest))
      && s[|ns| + 2..] == name + rest && s[|ns| + 2] == name[0]
  {
    var s := Spell(Seg(ns, name)) + rest;
    var u := name + rest;
    var t := ns + ("}" + u);
    var p := "{" + ns + "}";
    assert s == p + u;
    ConcatParts(p, u);
    assert s == "{" + t;
    ConcatTail("{", t);
    assert s[1..] == t;
  }

  /** The match of `{ns}name` read off positions: a namespace of n characters
      closed by '}', then a name of m characters other than '/'. */
  lemma SpellMatchAt(s: string, n: nat, m: nat)
    requires n >= 1 && m >= 1 && n + m + 2 <= |s|
    requires s[0] == '{' && RunUntil(s[1..], '}') == n
    requires RunUntil(s[n + 2..], '/') == m && s[n + 2] != '/' && s[n + 2] != ')'
    ensures MatchLen(s) == n + m + 2
  {
    MatchLenAtBrace(s);
    TailRun(s, n + 2);
  }

  lemma SegOfSpell(g: Seg)
    requires WellFormed(g)
    ensures SegOf(Spell(g)) == g
  {
    var l := "{" + g.ns;
    assert Spell(g) == l + ['}'] + g.name;
    assert NoChar(l, '}');
    SplitAtFirst(l, g.name, '}');
    SplitNoSep(g.name, '}');
    assert l[1..] == g.ns;
  }

  /** A path with no leading separator scans to exactly its spelled segments. */
  lemma {:induction false} MatchesRender(path: seq<Seg>)
    requires |path| >= 1 && forall k :: 0 <= k < |path| ==> WellFormed(path[k])
    ensures Matches(Render(path)) == Spells(path)
  {
    var g := path[0];
    if |path| == 1 {
      MatchesSpellEnd(g);
    } else {
      MatchesSpellSlash(g, Render(path[1..]));
      assert Render(path) == Spell(g) + ("/" + Render(path[1..]));
      MatchesRender(path[1..]);
    }
  }

  /** A lone spelled segment is one match. */
  lemma MatchesSpellEnd(g: Seg)
    requires WellFormed(g)
    ensures Matches(Spell(g)) == [Spell(g)]
  {
    SpellMatch(g, []);
    assert Spell(g) + [] == Spell(g);
    MatchesTake(Spell(g));
    assert Spell(g)[|Spell(g)|..] == [];
  }

  /** A spelled segment followed by '/' is one match, and scanning goes on
      after the '/'. */
  lemma MatchesSpellSlash(g: Seg, t: string)
    requires WellFormed(g)
    ensures Matches(Spell(g) + ("/" + t)) == [Spell(g)] + Matches(t)
  {
    var rest := "/" + t;
    var s := Spell(g) + rest;
    SpellMatch(g, rest);
    ConcatParts(Spell(g), rest);
    MatchesTake(s);
    MatchLenNoBrace(rest);
    MatchesSkip(rest);
    ConcatTail("/", t);
  }

  /** Compiling a rendered path gives the path back. */
  lemma CompileRender(path: seq<Seg>)
    requires |path| >= 1 && forall k :: 0 <= k < |path| ==> WellFormed(path[k])
    ensures Compile(Render(path)) == path
  {
    MatchesRender(path);
    SegsOfSpells(path);
  }

  lemma {:induction false} SegsOfSpells(path: seq<Seg>)
    requires forall k :: 0 <= k < |path| ==> WellFormed(path[k])
    ensures SegsOf(Spells(path)) == path
  {
    if path != [] {
      SegOfSpell(path[0]);
      SegsOfSpells(path[1..]);
    }
  }

  /** A path string without braces is one segment with no namespace. */
  lemma CompilePlain(xpath: string)
    requires NoChar(xpath, '{') && NoChar(xpath, '}')
    ensures Compile(xpath) == [Seg("", xpath)]
  {
    NoMatchesPlain(xpath);
    SplitNoSep(xpath, '}');
  }

  lemma {:induction false} NoMatchesPlain(s: string)
    requires NoChar(s, '{')
    ensures Matches(s) == []
  {
    if s != [] {
      NoMatchesPlain(s[1..]);
    }
  }

  /** A leading brace-free segment before a braced one is not captured: only
      the braced segments survive compilation. */
  lemma PlainPrefixDropped(prefix: string, path: seq<Seg>)
    requires NoChar(prefix, '{')
    requires |path| >= 1 && forall k :: 0 <= k < |path| ==> WellFormed(path[k])
    ensures Compile(prefix + "/" + Render(path)) == path
  {
    var s := prefix + "/" + Render(path);
    PlainPrefixParts(prefix, Render(path));
    SkipPlain(s, |prefix| + 1);
    MatchesRender(path);
    CompileSameMatches(s, Render(path));
    CompileRender(path);
  }

  lemma PlainPrefixParts(prefix: string, t: string)
    requires NoChar(prefix, '{')
    ensures var s := prefix + "/" + t;
      && s[|prefix| + 1..] == t && s[|prefix|] == '/'
      && forall i :: 0 <= i <= |prefix| ==> s[i] != '{'
  {
  }

  /** Compilation depends only on the matches when there are some. */
  lemma CompileSameMatches(s: string, t: string)
    requires Matches(s) == Matches(t) && Matches(t) != []
    ensures Compile(s) == Compile(t)
  {
  }

  /** Positions before the first brace start no match. */
  lemma {:induction false} SkipPlain(s: string, k: nat)
    requires k <= |s| && forall i :: 0 <= i < k ==> s[i] != '{'
    requires k == 0 || s[k - 1] != '('
    ensures Matches(s) == Matches(s[k..])
  {
    if k > 0 {
      assert |s| >= 2 && s[0] == '(' ==> s[1] != '{' by {
        if k == 1 { assert s[0] != '('; } else { assert s[1] != '{'; }
      }
      MatchLenNoBrace(s);
      MatchesSkip(s);
      assert forall i :: 0 <= i < k - 1 ==> s[1..][i] != '{' by {
        forall i | 0 <= i < k - 1 ensures s[1..][i] != '{' {
          assert s[1..][i] == s[i + 1];
        }
      }
      SkipPlain(s[1..], k - 1);
      assert s[1..][k - 1..] == s[k..];
    }
  }

  /** The step `{jabber:iq:roster}query`. */
  const RosterStep: Seg := Seg("jabber:iq:roster", "query")

  /** The path the client registers for roster pushes,
      `iq/{jabber:iq:roster}query`. */
  const RosterPath: string := "iq" + "/" + Spell(RosterStep)

  /** It compiles to the single segment ({jabber:iq:roster}, query): the
      leading `iq/` is lost. */
  lemma RosterPathOneSegment()
    ensures Compile(RosterPath) == [RosterStep]
  {
    RosterStepWellFormed();
    assert Render([RosterStep]) == Spell(RosterStep);
    PlainPrefixDropped("iq", [RosterStep]);
  }

  lemma RosterStepWellFormed()
    ensures WellFormed(RosterStep)
  {
  }

  // ---------------------------------------------------------------------------
  // Matching a compiled path against a stanza

  /** The first segment against the stanza root: a null namespace and the name
      "*" are wildcards. */
  predicate FitsRoot(g: Seg, root: Element) {
    (g.ns == "" || root.ns == g.ns) && (g.name == "*" || g.name == root.name)
  }

  /** Follow each later segment into the first fitting child. */
  function Walk(e: Element, segs: seq<Seg>): Option<Element> {
    if segs == [] then Some(e)
    else
      match Sub(e, segs[0].name, segs[0].ns)
      case None => None
      case Some(c) => Walk(c, segs[1..])
  }

  predicate PathMatches(path: seq<Seg>, root: Element) {
    |path| >= 1 && FitsRoot(path[0], root) && Walk(root, path[1..]).Some?
  }

  /** The test in the path handler loop of `endXML`: the first segment
      against the stanza, then one child step per further segment, stopping
      at the first step that finds nothing. */
  method MatchPath(path: seq<Seg>, root: Element) returns (found: bool)
    ensures found == PathMatches(path, root)
  {
    if |path| == 0 || !FitsRoot(path[0], root) {
      return false;
    }
    var search := root;
    var i := 1;
    while i < |path|
      invariant 1 <= i <= |path|
      invariant Walk(root, path[1..]) == Walk(search, path[i..])
    {
      var g := path[i];
      assert path[i..][0] == g && path[i..][1..] == path[i + 1..];
      if HasSub(search, g.name, g.ns) {
        search := Sub(search, g.name, g.ns).value;
        i := i + 1;
      } else {
        return false;
      }
    }
    found := true;
  }

  /** A walk ends on an element named by the last segment. */
  lemma {:induction false} WalkEndsOnLast(e: Element, segs: seq<Seg>)
    requires |segs| >= 1 && Walk(e, segs).Some?
    ensures Fits(Walk(e, segs).value, segs[|segs| - 1].name, segs[|segs| - 1].ns)
  {
    var c := Sub(e, segs[0].name, segs[0].ns).value;
    if |segs| > 1 {
      WalkEndsOnLast(c, segs[1..]);
      assert segs[1..][|segs[1..]| - 1] == segs[|segs| - 1];
    }
  }

  /** Because of the lost `iq/`, the roster handler never fires for an `iq`
      stanza, which is where roster results arrive. */
  lemma RosterPathMissesIq(stanza: Element)
    requires stanza.name == "iq"
    ensures !PathMatches(Compile(RosterPath), stanza)
  {
    RosterPathOneSegment();
  }
}
