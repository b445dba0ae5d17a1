/** SASL as the client speaks it: the mechanism chosen from the stream
    features, the PLAIN message of section 2 of RFC 4616, the parser for
    DIGEST-MD5 challenges and the first response of section 2.1.2.1 of
    RFC 2831. MD5 and base64 are given functions; the client nonce is a
    parameter. */
module Sasl {
  import opened Util
  import opened Dict
  import opened XmlObj

  /** The primitives the client takes from PHP: `md5` as its 16 raw bytes
      (what `pack('H32', md5($s))` gives back) and base64 in both directions. */
  datatype Crypto = Crypto(md5: string -> string, b64Encode: string -> string, b64Decode: string -> string)

  // ---------------------------------------------------------------------------
  // Mechanism choice

  datatype Mechanism = Anonymous | Plain | DigestMd5 | NoMechanism

  /** `authMechanismSupported`. */
  const Supported: seq<string> := ["PLAIN", "DIGEST-MD5"]

  /** The features list mechanisms: a `mechanisms` child with at least one
      `mechanism` child. */
  predicate Lists(features: Element) {
    HasSub(features, "mechanisms", "") && HasSub(Sub(features, "mechanisms", "").value, "mechanism", "")
  }

  /** The server offers mechanism m among the listed ones. */
  predicate Offers(features: Element, m: string) {
    Lists(features) &&
    var subs := Sub(features, "mechanisms", "").value.subs;
    exists i :: 0 <= i < |subs| && subs[i].name == "mechanism" && subs[i].data == m
  }

  /** `$available`: every offered mechanism the client supports, keyed by
      itself, in order of first offer. Built from the end so that it follows
      the loop that fills it. */
  function Available(subs: seq<Element>): (r: Dict<string, string>)
    ensures SelfKeyed(r)
  {
    if subs == [] then []
    else
      var a := Available(subs[..|subs| - 1]);
      var c := subs[|subs| - 1];
      if c.name == "mechanism" && c.data in Supported then
        PutSame(a, c.data);
        Put(a, c.data, c.data)
      else a
  }

  /** Every entry is a supported mechanism keyed by itself. */
  predicate SelfKeyed(d: Dict<string, string>) {
    forall i :: 0 <= i < |d| ==> d[i].0 == d[i].1 && d[i].0 in Supported
  }

  lemma {:induction false} PutSame(a: Dict<string, string>, m: string)
    requires SelfKeyed(a) && m in Supported
    ensures SelfKeyed(Put(a, m, m))
  {
    var r := Put(a, m, m);
    if a != [] && a[0].0 != m {
      PutSame(a[1..], m);
      var t := Put(a[1..], m, m);
      assert r == [a[0]] + t;
      forall i | 0 <= i < |r| ensures r[i].0 == r[i].1 && r[i].0 in Supported {
        if i > 0 { assert r[i] == t[i - 1]; }
      }
    } else if a != [] {
      forall i | 0 <= i < |r| ensures r[i].0 == r[i].1 && r[i].0 in Supported {
        if i > 0 { assert r[i] == a[i]; }
      }
    }
  }

  /** A supported mechanism is available exactly when it is offered. */
  lemma {:induction false} AvailableOffered(subs: seq<Element>, m: string)
    requires m in Supported
    ensures HasKey(Available(subs), m) <==> exists i :: 0 <= i < |subs| && subs[i].name == "mechanism" && subs[i].data == m
  {
    if subs != [] {
      var n := |subs| - 1;
      var a := Available(subs[..n]);
      var c := subs[n];
      AvailableOffered(subs[..n], m);
      if c.name == "mechanism" && c.data in Supported {
        if c.data == m { PutGet(a, m, m); } else { PutOther(a, c.data, c.data, m); }
      }
      if exists i :: 0 <= i < n && subs[..n][i].name == "mechanism" && subs[..n][i].data == m {
        var i :| 0 <= i < n && subs[..n][i].name == "mechanism" && subs[..n][i].data == m;
        assert subs[i] == subs[..n][i];
      }
      if exists i :: 0 <= i < |subs| && subs[i].name == "mechanism" && subs[i].data == m {
        var i :| 0 <= i < |subs| && subs[i].name == "mechanism" && subs[i].data == m;
        if i < n { assert subs[..n][i] == subs[i]; }
      }
    }
  }

  /** The `switch ($mechanism)` of the features handler: `reset` on an empty
      array gives false, which matches no case. */
  function FromName(m: string): Mechanism {
    if m == "PLAIN" then Plain else if m == "DIGEST-MD5" then DigestMd5 else NoMechanism
  }

  /** With no password the client goes anonymous. With one, PLAIN is the
      default; when mechanisms are listed only supported ones count,
      DIGEST-MD5 first, else the first one available, else none. */
  function ChooseMechanism(password: string, features: Element): (r: Mechanism)
    ensures r == Anonymous <==> Falsy(password)
    ensures r == DigestMd5 <==> !Falsy(password) && Offers(features, "DIGEST-MD5")
    ensures r == Plain <==>
      !Falsy(password) && (!Lists(features) || (Offers(features, "PLAIN") && !Offers(features, "DIGEST-MD5")))
    ensures r == NoMechanism <==>
      !Falsy(password) && Lists(features) && !Offers(features, "PLAIN") && !Offers(features, "DIGEST-MD5")
  {
    if Falsy(password) then Anonymous
    else if Lists(features) then
      var subs := Sub(features, "mechanisms", "").value.subs;
      AvailableOffered(subs, "PLAIN");
      AvailableOffered(subs, "DIGEST-MD5");
      Preferred(Available(subs))
    else Plain
  }

  /** The choice among the collected mechanisms: DIGEST-MD5 when collected,
      else the first one collected, else none. */
  function Preferred(avail: Dict<string, string>): (r: Mechanism)
    requires SelfKeyed(avail)
    ensures r == DigestMd5 <==> HasKey(avail, "DIGEST-MD5")
    ensures r == NoMechanism <==> avail == []
    ensures r == Plain <==> HasKey(avail, "PLAIN") && !HasKey(avail, "DIGEST-MD5")
  {
    if HasKey(avail, "DIGEST-MD5") then DigestMd5
    else if avail == [] then NoMechanism
    else
      assert HasKey(avail, avail[0].0);
      FromName(avail[0].1)
  }

  /** The authentication branch of `featuresHandler` up to the choice:
      ANONYMOUS without a password, PLAIN by default, and the preferred or
      first collected mechanism when the features list some. */
  method PickMechanism(password: string, features: Element) returns (m: Mechanism)
    ensures m == ChooseMechanism(password, features)
  {
    m := Plain;
    if Falsy(password) {
      m := Anonymous;
    } else if Lists(features) {
      var avail := CollectAvailable(Sub(features, "mechanisms", "").value.subs);
      m := Preferred(avail);
    }
  }

  /** The mechanism loop of `featuresHandler`. */
  method CollectAvailable(subs: seq<Element>) returns (avail: Dict<string, string>)
    ensures avail == Available(subs)
  {
    avail := [];
    for i := 0 to |subs|
      invariant avail == Available(subs[..i])
    {
      assert subs[..i + 1][..i] == subs[..i];
      var c := subs[i];
      if c.name == "mechanism" && c.data in Supported {
        avail := Put(avail, c.data, c.data);
      }
    }
    assert subs[..|subs|] == subs;
  }

  /** The challenge loop of `saslChallengeHandler`: `$vars[$k] = $v` for each
      match in turn. */
  method CollectVars(pairs: seq<(string, string)>) returns (vars: Dict<string, string>)
    ensures vars == PutAll([], pairs)
  {
    vars := [];
    for i := 0 to |pairs|
      invariant PutAll(vars, pairs[i..]) == PutAll([], pairs)
    {
      assert pairs[i..][1..] == pairs[i + 1..];
      vars := Put(vars, pairs[i].0, pairs[i].1);
    }
  }

  const SaslNs := "urn:ietf:params:xml:ns:xmpp-sasl"

  /** The SASL PLAIN message: an empty authorization identity, then the
      authentication identity and the password, each after a NUL. */
  function PlainMessage(user: string, password: string): string {
    "\0" + user + "\0" + password
  }

  /** A receiver splitting the message at NUL finds the three fields of
      RFC 4616 again, provided user and password hold no NUL themselves. */
  lemma PlainMessageFields(user: string, password: string)
    requires NoChar(user, '\0') && NoChar(password, '\0')
    ensures Split(PlainMessage(user, password), '\0') == ["", user, password]
  {
    var m := PlainMessage(user, password);
    assert m == [] + ['\0'] + (user + ['\0'] + password);
    SplitAtFirst([], user + ['\0'] + password, '\0');
    SplitAtFirst(user, password, '\0');
    SplitNoSep(password, '\0');
  }

  /** The `<auth>` element sent for the chosen mechanism; nothing for none. */
  function AuthStanza(m: Mechanism, user: string, password: string, c: Crypto): (r: Option<string>)
    ensures r.None? <==> m == NoMechanism
  {
    match m
    case Anonymous => Some("<auth xmlns='" + SaslNs + "' mechanism='ANONYMOUS'/>")
    case Plain => Some("<auth xmlns='" + SaslNs + "' mechanism='PLAIN'>" + c.b64Encode(PlainMessage(user, password)) + "</auth>")
    case DigestMd5 => Some("<auth xmlns='" + SaslNs + "' mechanism='DIGEST-MD5' />")
    case NoMechanism => None
  }

  // ---------------------------------------------------------------------------
  // Challenge parsing: `preg_match_all('/(\w+)=(?:"([^"]*)|([^,]*))/', ...)`

  predicate AllWord(s: string) {
    forall i :: 0 <= i < |s| ==> IsWordChar(s[i])
  }

  /** The length of the run of word characters at the start of s. */
  function WordLen(s: string): (n: nat)
    ensures n <= |s| && AllWord(s[..n])
  {
    if s != [] && IsWordChar(s[0]) then
      var n := 1 + WordLen(s[1..]);
      assert s[..n] == [s[0]] + s[1..][..n - 1];
      n
    else 0
  }

  /** The match of the pattern that starts at the first character of s, if
      any: its key, its value and its length. A quoted value runs to the next
      double quote or the end, and the match stops before that quote; a bare
      value runs to the next comma. The value is group 2 unless that group is
      `empty`, in which case it is group 3 (empty for a quoted match). */
  function MatchAt(s: string): (r: Option<(string, string, nat)>)
    ensures r.Some? ==> 0 < r.value.2 <= |s|
  {
    var w := WordLen(s);
    if w == 0 || w == |s| || s[w] != '=' then None
    else
      var t := s[w + 1..];
      if t != [] && t[0] == '"' then
        var q := t[1..][..RunUntil(t[1..], '"')];
        Some((s[..w], if Falsy(q) then "" else q, w + 2 + |q|))
      else
        var b := t[..RunUntil(t, ',')];
        Some((s[..w], b, w + 1 + |b|))
  }

  /** Every match, left to right, as (key, value) pairs. */
  function Tokens(s: string): seq<(string, string)>
    decreases |s|
  {
    if s == [] then []
    else
      match MatchAt(s)
      case Some((k, v, n)) => [(k, v)] + Tokens(s[n..])
      case None => Tokens(s[1..])
  }

  /** `$vars[$k] = $v` for every pair in order: a repeated key keeps its
      first position and its last value. */
  function PutAll(acc: Dict<string, string>, pairs: seq<(string, string)>): Dict<string, string>
    decreases |pairs|
  {
    if pairs == [] then acc else PutAll(Put(acc, pairs[0].0, pairs[0].1), pairs[1..])
  }

  function ParseChallenge(challenge: string): Dict<string, string> {
    PutAll([], Tokens(challenge))
  }

  // ---------------------------------------------------------------------------
  // Writing key=value lists, and reading them back

  /** One field of a key=value list, with its value quoted or bare. */
  datatype Field = Quoted(key: string, value: string) | Bare(key: string, value: string)

  function RenderField(f: Field): string {
    match f
    case Quoted(k, v) => k + ['=', '"'] + v + ['"']
    case Bare(k, v) => k + ['='] + v
  }

  /** The fields joined by commas. */
  function RenderFields(fs: seq<Field>): string {
    if fs == [] then ""
    else if |fs| == 1 then RenderField(fs[0])
    else RenderField(fs[0]) + "," + RenderFields(fs[1..])
  }

  /** The key the pattern reads for a field key: \w+ cannot cross a
      character outside \w, so only the part after the last such character
      is read ("digest-uri" is read as "uri"). */
  function ReadKey(k: string): string
    decreases |k|
  {
    var n := WordLen(k);
    if n == |k| then k else ReadKey(k[n + 1..])
  }

  /** A field reads back when its key has no '=' and ends in a word
      character, a quoted value has no double quote and is not "0" (which
      `empty` discards), and a bare value has no comma and does not start
      with a double quote. */
  predicate FieldOk(f: Field) {
    && '=' !in f.key && ReadKey(f.key) != []
    && match f
       case Quoted(_, v) => NoChar(v, '"') && v != "0"
       case Bare(_, v) => NoChar(v, ',') && (v == [] || v[0] != '"')
  }

  /** A quoted value reads back when it holds no double quote and is not "0". */
  predicate QuotedOk(v: string) {
    NoChar(v, '"') && v != "0"
  }

  /** A bare value reads back when it holds no comma and does not start with a double quote. */
  predicate BareOk(v: string) {
    NoChar(v, ',') && (v == [] || v[0] != '"')
  }

  /** The pairs a reader finds in rendered fields. */
  function Pairs(fs: seq<Field>): (r: seq<(string, string)>)
    ensures |r| == |fs|
    ensures forall i :: 0 <= i < |fs| ==> r[i] == (ReadKey(fs[i].key), fs[i].value)
  {
    if fs == [] then [] else [(ReadKey(fs[0].key), fs[0].value)] + Pairs(fs[1..])
  }

  lemma {:induction false} WordLenAt(a: string, b: string)
    requires AllWord(a) && (b == [] || !IsWordChar(b[0]))
    ensures WordLen(a + b) == |a|
  {
    if a != [] {
      ConcatTail(a, b);
      WordLenAt(a[1..], b);
    }
  }

  lemma ReadKeyWord(k: string)
    ensures AllWord(ReadKey(k))
    decreases |k|
  {
    var n := WordLen(k);
    if n == |k| {
      assert k[..n] == k;
    } else {
      ReadKeyWord(k[n + 1..]);
    }
  }

  /** A character outside \w starts no match. */
  lemma TokensSkipChar(c: char, s: string)
    requires !IsWordChar(c)
    ensures Tokens([c] + s) == Tokens(s)
  {
    assert ([c] + s)[1..] == s;
  }

  /** Word characters followed by a character that is neither a word
      character nor '=' start no match. */
  lemma {:induction false} TokensSkipWord(w: string, c: char, s: string)
    requires AllWord(w) && !IsWordChar(c) && c != '='
    ensures Tokens(w + [c] + s) == Tokens(s)
  {
    var t := w + [c] + s;
    WordLenAt(w, [c] + s);
    assert t == w + ([c] + s);
    assert t[|w|] == c;
    if w == [] {
      assert t == [c] + s;
      TokensSkipChar(c, s);
    } else {
      assert t[1..] == w[1..] + [c] + s;
      TokensSkipWord(w[1..], c, s);
    }
  }

  /** A reader skips a field key up to the part it reads. */
  lemma TokensKey(k: string, s: string)
    requires '=' !in k
    ensures Tokens(k + s) == Tokens(ReadKey(k) + s)
    decreases |k|
  {
    var n := WordLen(k);
    if n < |k| {
      assert k == k[..n] + [k[n]] + k[n + 1..];
      assert k + s == k[..n] + [k[n]] + (k[n + 1..] + s);
      WordLenExtends(k, n);
      TokensSkipWord(k[..n], k[n], k[n + 1..] + s);
      TokensKey(k[n + 1..], s);
    }
  }

  /** The run of word characters stops at a character outside \w. */
  lemma {:induction false} WordLenExtends(s: string, n: nat)
    requires n < |s| && WordLen(s) == n
    ensures !IsWordChar(s[n])
  {
    if n > 0 {
      WordLenExtends(s[1..], n - 1);
    }
  }

  lemma MatchQuoted(k: string, v: string, tail: string)
    requires AllWord(k) && k != [] && NoChar(v, '"') && v != "0"
    ensures var s := k + ['=', '"'] + v + ['"'] + tail;
      MatchAt(s) == Some((k, v, |k| + 2 + |v|)) && s[|k| + 2 + |v|..] == ['"'] + tail
  {
    var s := k + ['=', '"'] + v + ['"'] + tail;
    QuotedLayout(k, v + (['"'] + tail));
    assert s == k + ['=', '"'] + (v + (['"'] + tail));
    RunUntilAt(v, '"', ['"'] + tail);
    ConcatParts(v, ['"'] + tail);
    MatchAtQuoted(s, |k|, v);
  }

  /** Where the pieces of `key="…` sit. */
  lemma QuotedLayout(k: string, u: string)
    requires AllWord(k) && k != []
    ensures var s := k + ['=', '"'] + u;
      WordLen(s) == |k| && s[..|k|] == k && s[|k|] == '=' && s[|k| + 1] == '"' && s[|k| + 2..] == u
  {
    var s := k + ['=', '"'] + u;
    AfterKey(k, ['=', '"'], u);
    assert ['=', '"'] + u == ['='] + (['"'] + u);
    DropOne(s, |k|, '=', ['"'] + u);
    DropOne(s, |k| + 1, '"', u);
  }

  /** MatchAt on a quoted value, stated on positions only. */
  lemma MatchAtQuoted(s: string, w: nat, v: string)
    requires 0 < w && w + 1 < |s| && WordLen(s) == w && s[w] == '=' && s[w + 1] == '"'
    requires RunUntil(s[w + 2..], '"') == |v| && s[w + 2..][..|v|] == v && v != "0"
    ensures MatchAt(s) == Some((s[..w], v, w + 2 + |v|))
  {
    var t := s[w + 1..];
    assert t[1..] == s[w + 2..];
  }

  lemma MatchBare(k: string, v: string, tail: string)
    requires AllWord(k) && k != [] && NoChar(v, ',') && (v == [] || v[0] != '"')
    requires tail == [] || tail[0] == ','
    ensures var s := k + ['='] + v + tail;
      MatchAt(s) == Some((k, v, |k| + 1 + |v|)) && s[|k| + 1 + |v|..] == tail
  {
    var s := k + ['='] + v + tail;
    var u := v + tail;
    assert s == k + ['='] + u;
    AfterKey(k, ['='], u);
    DropOne(s, |k|, '=', u);
    RunUntilAt(v, ',', tail);
    ConcatParts(v, tail);
  }

  lemma DropOne(s: string, n: nat, c: char, u: string)
    requires n < |s| && s[n..] == [c] + u
    ensures s[n] == c && s[n + 1..] == u
  {
    assert s[n] == s[n..][0];
    assert s[n + 1..] == s[n..][1..];
  }

  /** The key's run of word characters ends at the separator after it. */
  lemma AfterKey(k: string, sep: string, u: string)
    requires AllWord(k) && sep != [] && !IsWordChar(sep[0])
    ensures WordLen(k + sep + u) == |k| && (k + sep + u)[|k|..] == sep + u && (k + sep + u)[..|k|] == k
  {
    assert k + sep + u == k + (sep + u);
    WordLenAt(k, sep + u);
    ConcatParts(k, sep + u);
  }

  lemma TokensMatch(s: string)
    requires MatchAt(s).Some?
    ensures Tokens(s) == [(MatchAt(s).value.0, MatchAt(s).value.1)] + Tokens(s[MatchAt(s).value.2..])
  {
  }

  lemma TokensQuoted(key: string, v: string, tail: string)
    requires FieldOk(Quoted(key, v))
    ensures Tokens(RenderField(Quoted(key, v)) + tail) == [(ReadKey(key), v)] + Tokens(tail)
  {
    var r := ['=', '"'] + v + ['"'] + tail;
    assert RenderField(Quoted(key, v)) + tail == key + r;
    TokensKey(key, r);
    ReadKeyWord(key);
    TokensQuotedWord(ReadKey(key), v, tail);
  }

  lemma TokensQuotedWord(k: string, v: string, tail: string)
    requires AllWord(k) && k != [] && NoChar(v, '"') && v != "0"
    ensures Tokens(k + (['=', '"'] + v + ['"'] + tail)) == [(k, v)] + Tokens(tail)
  {
    var s := k + ['=', '"'] + v + ['"'] + tail;
    assert k + (['=', '"'] + v + ['"'] + tail) == s;
    MatchQuoted(k, v, tail);
    TokensMatch(s);
    TokensSkipChar('"', tail);
  }

  lemma TokensBare(key: string, v: string, tail: string)
    requires FieldOk(Bare(key, v)) && (tail == [] || tail[0] == ',')
    ensures Tokens(RenderField(Bare(key, v)) + tail) == [(ReadKey(key), v)] + Tokens(tail)
  {
    var r := ['='] + v + tail;
    BareAppend(key, v, tail);
    TokensKey(key, r);
    ReadKeyWord(key);
    TokensBareWord(ReadKey(key), v, tail);
  }

  lemma BareAppend(key: string, v: string, tail: string)
    ensures RenderField(Bare(key, v)) + tail == key + (['='] + v + tail)
  {
  }

  lemma TokensBareWord(k: string, v: string, tail: string)
    requires AllWord(k) && k != [] && NoChar(v, ',') && (v == [] || v[0] != '"')
    requires tail == [] || tail[0] == ','
    ensures Tokens(k + (['='] + v + tail)) == [(k, v)] + Tokens(tail)
  {
    var s := k + ['='] + v + tail;
    assert k + (['='] + v + tail) == s;
    MatchBare(k, v, tail);
    TokensMatch(s);
  }

  /** One rendered field followed by the rest of the list reads as its pair. */
  lemma TokensField(f: Field, tail: string)
    requires FieldOk(f) && (tail == [] || tail[0] == ',')
    ensures Tokens(RenderField(f) + tail) == [(ReadKey(f.key), f.value)] + Tokens(tail)
  {
    if f.Quoted? {
      TokensQuoted(f.key, f.value, tail);
    } else {
      TokensBare(f.key, f.value, tail);
    }
  }

  lemma {:induction false} TokensRender(fs: seq<Field>)
    requires forall i :: 0 <= i < |fs| ==> FieldOk(fs[i])
    ensures Tokens(RenderFields(fs)) == Pairs(fs)
  {
    if |fs| == 1 {
      TokensField(fs[0], []);
      assert RenderField(fs[0]) + [] == RenderFields(fs);
    } else if |fs| > 1 {
      var rest := RenderFields(fs[1..]);
      assert RenderFields(fs) == RenderField(fs[0]) + ("," + rest);
      TokensField(fs[0], "," + rest);
      TokensSkipChar(',', rest);
      TokensRender(fs[1..]);
      assert Pairs(fs) == [(ReadKey(fs[0].key), fs[0].value)] + Pairs(fs[1..]);
    }
  }

  /** On distinct keys, assigning pair after pair appends them in order. */
  lemma {:induction false} PutAllFresh(acc: Dict<string, string>, ps: seq<(string, string)>)
    requires DistinctKeys(acc + ps)
    ensures PutAll(acc, ps) == acc + ps
    decreases |ps|
  {
    if ps != [] {
      forall i | 0 <= i < |acc| ensures acc[i].0 != ps[0].0 {
        assert (acc + ps)[i] == acc[i] && (acc + ps)[|acc|] == ps[0];
      }
      PutNew(acc, ps[0].0, ps[0].1);
      assert acc + [ps[0]] + ps[1..] == acc + ps;
      PutAllFresh(acc + [ps[0]], ps[1..]);
    } else {
      assert acc + ps == acc;
    }
  }

  /** The parser reads back every list of acceptable fields with distinct
      keys: exactly the pairs written, in the order written. */
  lemma ParseRender(fs: seq<Field>)
    requires forall i :: 0 <= i < |fs| ==> FieldOk(fs[i])
    requires DistinctKeys(Pairs(fs))
    ensures ParseChallenge(RenderFields(fs)) == Pairs(fs)
  {
    TokensRender(fs);
    PutAllPairs(Pairs(fs));
  }

  lemma PutAllPairs(ps: seq<(string, string)>)
    requires DistinctKeys(ps)
    ensures PutAll([], ps) == ps
  {
    assert [] + ps == ps;
    PutAllFresh([], ps);
  }

  // ---------------------------------------------------------------------------
  // Hexadecimal digests

  const HexDigits: string := "0123456789abcdef"

  /** Every character is a byte, as PHP strings are. */
  predicate Bytes(s: string) {
    forall i :: 0 <= i < |s| ==> s[i] as int < 256
  }

  /** Lower-case hexadecimal, two digits per byte: what PHP's `md5` returns
      for the raw digest. */
  function Hex(s: string): (r: string)
    ensures |r| == 2 * |s|
    ensures forall i :: 0 <= i < |r| ==> r[i] in HexDigits
  {
    if s == [] then []
    else
      var b := s[0] as int % 256;
      [HexDigits[b / 16], HexDigits[b % 16]] + Hex(s[1..])
  }

  function HexValue(c: char): nat {
    if '0' <= c <= '9' then c as int - '0' as int
    else if 'a' <= c <= 'f' then c as int - 'a' as int + 10
    else if 'A' <= c <= 'F' then c as int - 'A' as int + 10
    else 0
  }

  /** `pack('H*', $h)`: each pair of hex digits becomes one byte, high
      nibble first; a lone last digit is the high nibble of a last byte. */
  function Unhex(h: string): (r: string)
    ensures Bytes(r)
  {
    if h == [] then []
    else if |h| == 1 then [(HexValue(h[0]) % 16 * 16) as char]
    else [(HexValue(h[0]) % 16 * 16 + HexValue(h[1]) % 16) as char] + Unhex(h[2..])
  }

  lemma HexDigitValue(d: nat)
    requires d < 16
    ensures HexValue(HexDigits[d]) == d
  {
  }

  /** One byte's two digits pack back into that byte. */
  lemma UnhexByte(c: char, t: string)
    requires c as int < 256
    ensures Unhex([HexDigits[c as int % 256 / 16], HexDigits[c as int % 256 % 16]] + t) == [c] + Unhex(t)
  {
    var b := c as int % 256;
    var hi, lo := b / 16, b % 16;
    assert hi * 16 + lo == c as int;
    HexDigitValue(hi);
    HexDigitValue(lo);
    var h := [HexDigits[hi], HexDigits[lo]] + t;
    assert h[0] == HexDigits[hi] && h[1] == HexDigits[lo] && h[2..] == t;
    assert HexValue(h[0]) % 16 * 16 + HexValue(h[1]) % 16 == c as int;
  }

  /** Packing the hex form of bytes gives the bytes back. */
  lemma {:induction false} UnhexHex(s: string)
    requires Bytes(s)
    ensures Unhex(Hex(s)) == s
  {
    if s != [] {
      UnhexHex(s[1..]);
      UnhexByte(s[0], Hex(s[1..]));
      assert [s[0]] + s[1..] == s;
    }
  }

  function Md5Hex(c: Crypto, s: string): string {
    Hex(c.md5(s))
  }

  // ---------------------------------------------------------------------------
  // The DIGEST-MD5 first response

  /** `$vars[$k]`, a missing key read as null (""). */
  function Lookup(vars: Dict<string, string>, k: string): string {
    match Get(vars, k)
    case Some(v) => v
    case None => ""
  }

  /** The challenge variables completed for the first response: the client
      nonce, nonce count 00000001, qop forced to "auth", and the digest URI
      "xmpp/" + server unless the challenge gave one. */
  function ResponseVars(vars: Dict<string, string>, server: string, cnonce: string): (r: Dict<string, string>)
    ensures Lookup(r, "cnonce") == cnonce && Lookup(r, "nc") == FirstCount && Lookup(r, "qop") == QopAuth
    ensures Lookup(r, "digest-uri") == if HasKey(vars, "digest-uri") then Lookup(vars, "digest-uri") else "xmpp/" + server
    ensures forall k :: k !in {"cnonce", "nc", "qop", "digest-uri"} ==> Get(r, k) == Get(vars, k)
  {
    var v1 := Put(vars, "cnonce", cnonce);
    var v2 := Put(v1, "nc", FirstCount);
    var v3 := Put(v2, "qop", QopAuth);
    PutGet(vars, "cnonce", cnonce);
    PutOther(v1, "nc", FirstCount, "cnonce");
    PutGet(v1, "nc", FirstCount);
    PutOther(v2, "qop", QopAuth, "cnonce");
    PutOther(v2, "qop", QopAuth, "nc");
    PutGet(v2, "qop", QopAuth);
    PutOther(vars, "cnonce", cnonce, "digest-uri");
    PutOther(v1, "nc", FirstCount, "digest-uri");
    PutOther(v2, "qop", QopAuth, "digest-uri");
    forall k | k !in {"cnonce", "nc", "qop", "digest-uri"} ensures Get(v3, k) == Get(vars, k) {
      PutOther(vars, "cnonce", cnonce, k);
      PutOther(v1, "nc", FirstCount, k);
      PutOther(v2, "qop", QopAuth, k);
    }
    if HasKey(v3, "digest-uri") then v3
    else
      var r := Put(v3, "digest-uri", "xmpp/" + server);
      PutGet(v3, "digest-uri", "xmpp/" + server);
      PutOther(v3, "digest-uri", "xmpp/" + server, "cnonce");
      PutOther(v3, "digest-uri", "xmpp/" + server, "nc");
      PutOther(v3, "digest-uri", "xmpp/" + server, "qop");
      forall k | k !in {"cnonce", "nc", "qop", "digest-uri"} ensures Get(r, k) == Get(v3, k) {
        PutOther(v3, "digest-uri", "xmpp/" + server, k);
      }
      r
  }

  /** The response digest as the client computes it: A1 is user:realm:password,
      or for md5-sess the packed digest of that followed by nonce and client
      nonce; A2 is "AUTHENTICATE:" + digest URI. */
  function DigestResponse(c: Crypto, user: string, realm: string, password: string, nonce: string, cnonce: string,
                          nc: string, qop: string, uri: string, algorithm: string): string
  {
    var a1 := user + ":" + realm + ":" + password;
    var a1' := if algorithm == "md5-sess" then Unhex(Md5Hex(c, a1)) + ":" + nonce + ":" + cnonce else a1;
    var a2 := "AUTHENTICATE:" + uri;
    Md5Hex(c, Md5Hex(c, a1') + ":" + nonce + ":" + nc + ":" + cnonce + ":" + qop + ":" + Md5Hex(c, a2))
  }

  const UsernameKey: string := "username"
  const RealmKey: string := "realm"
  const NonceKey: string := "nonce"
  const CnonceKey: string := "cnonce"
  const NcKey: string := "nc"
  const QopKey: string := "qop"
  const DigestUriKey: string := "digest-uri"
  const UriKey: string := "uri"
  const ResponseKey: string := "response"
  const CharsetKey: string := "charset"

  /** The fields of the first response, in the order the client writes them. */
  function ResponseFields(user: string, realm: string, nonce: string, cnonce: string, nc: string, qop: string,
                          uri: string, response: string): seq<Field>
  {
    [Quoted(UsernameKey, user), Quoted(RealmKey, realm), Quoted(NonceKey, nonce), Quoted(CnonceKey, cnonce),
     Bare(NcKey, nc), Bare(QopKey, qop), Quoted(DigestUriKey, uri), Bare(ResponseKey, response), Bare(CharsetKey, Utf8)]
  }

  /** What the client answers a challenge with. */
  datatype Reply = Respond(text: string, user: string) | Acknowledge | NoReply

  /** A user name "u@r" supplies the realm when the challenge has none. */
  predicate TakesRealm(vars: Dict<string, string>, user: string) {
    SecondPiece(user, '@') != "" && !HasKey(vars, "realm")
  }

  /** `saslChallengeHandler` on parsed challenge variables: with a nonce, the
      first response (and the user name it used, which the client keeps);
      with only rspauth, an empty response; otherwise nothing. */
  function ChallengeReply(vars: Dict<string, string>, user: string, password: string, server: string,
                          cnonce: string, c: Crypto): (r: Reply)
    ensures r.Respond? <==> HasKey(vars, "nonce")
    ensures r.Acknowledge? <==> !HasKey(vars, "nonce") && HasKey(vars, "rspauth")
    ensures r.Respond? ==> r.user == if TakesRealm(vars, user) then FirstPiece(user, '@') else user
  {
    if HasKey(vars, "nonce") then
      var v := ResponseVars(vars, server, cnonce);
      var takeRealm := SecondPiece(user, '@') != "" && !HasKey(v, "realm");
      var u := if takeRealm then FirstPiece(user, '@') else user;
      var v' := if takeRealm then Put(v, "realm", SecondPiece(user, '@')) else v;
      var resp := DigestResponse(c, u, Lookup(v', "realm"), password, Lookup(v', "nonce"), Lookup(v', "cnonce"),
                                 Lookup(v', "nc"), Lookup(v', "qop"), Lookup(v', "digest-uri"), Lookup(v', "algorithm"));
      Respond(RenderFields(ResponseFields(u, Lookup(v', "realm"), Lookup(v', "nonce"), Lookup(v', "cnonce"),
                                          Lookup(v', "nc"), Lookup(v', "qop"), Lookup(v', "digest-uri"), resp)), u)
    else if HasKey(vars, "rspauth") then Acknowledge
    else NoReply
  }

  /** The stanza sent for a reply, the response text base64-encoded. */
  function ReplyStanza(r: Reply, c: Crypto): (s: Option<string>)
    ensures s.None? <==> r.NoReply?
  {
    match r
    case Respond(text, _) => Some("<response xmlns='" + SaslNs + "'>" + c.b64Encode(text) + "</response>")
    case Acknowledge => Some("<response xmlns='" + SaslNs + "'/>")
    case NoReply => None
  }

  /** The nonce count of a first response, and the one protection level offered. */
  const FirstCount: string := "00000001"
  const QopAuth: string := "auth"

  lemma CountAuthBare()
    ensures BareOk(FirstCount) && BareOk(QopAuth)
  {
  }

  lemma HexBare(s: string)
    ensures BareOk(Hex(s))
  {
    var h := Hex(s);
    forall i | 0 <= i < |h| ensures h[i] != ',' && h[i] != '"' {
      assert h[i] in HexDigits;
    }
  }

  /** The user name after the realm rule. */
  function ReplyUser(vars: Dict<string, string>, user: string): string {
    if TakesRealm(vars, user) then FirstPiece(user, '@') else user
  }

  /** The realm of the response: the challenge's, else the one the user name carries. */
  function ReplyRealm(vars: Dict<string, string>, user: string): string {
    if TakesRealm(vars, user) then SecondPiece(user, '@') else Lookup(vars, "realm")
  }

  function ReplyUri(vars: Dict<string, string>, server: string): string {
    if HasKey(vars, "digest-uri") then Lookup(vars, "digest-uri") else "xmpp/" + server
  }

  /** The first response is the nine fields built from the challenge, the
      user name, the server and the client nonce. */
  lemma ChallengeReplyText(vars: Dict<string, string>, user: string, password: string, server: string,
                           cnonce: string, c: Crypto)
    requires HasKey(vars, "nonce")
    ensures var u, realm, uri := ReplyUser(vars, user), ReplyRealm(vars, user), ReplyUri(vars, server);
      ChallengeReply(vars, user, password, server, cnonce, c).text
      == RenderFields(ResponseFields(u, realm, Lookup(vars, "nonce"), cnonce, FirstCount, QopAuth, uri,
           DigestResponse(c, u, realm, password, Lookup(vars, "nonce"), cnonce, FirstCount, QopAuth, uri,
                          Lookup(vars, "algorithm"))))
  {
    var v := ResponseVars(vars, server, cnonce);
    assert Get(v, "realm") == Get(vars, "realm");
    assert Get(v, "nonce") == Get(vars, "nonce");
    assert Get(v, "algorithm") == Get(vars, "algorithm");
    if TakesRealm(vars, user) {
      RealmPut(v, SecondPiece(user, '@'));
    }
  }

  /** Storing the realm changes no other variable the response reads. */
  lemma RealmPut(v: Dict<string, string>, r: string)
    ensures var v' := Put(v, "realm", r);
      && Lookup(v', "realm") == r && Lookup(v', "nonce") == Lookup(v, "nonce")
      && Lookup(v', "cnonce") == Lookup(v, "cnonce") && Lookup(v', "nc") == Lookup(v, "nc")
      && Lookup(v', "qop") == Lookup(v, "qop") && Lookup(v', "digest-uri") == Lookup(v, "digest-uri")
      && Lookup(v', "algorithm") == Lookup(v, "algorithm")
  {
    PutGet(v, "realm", r);
    PutOther(v, "realm", r, "nonce");
    PutOther(v, "realm", r, "cnonce");
    PutOther(v, "realm", r, "nc");
    PutOther(v, "realm", r, "qop");
    PutOther(v, "realm", r, "digest-uri");
    PutOther(v, "realm", r, "algorithm");
  }

  /** A key of word characters is read back as itself. */
  lemma ReadKeyAllWord(k: string)
    requires AllWord(k)
    ensures ReadKey(k) == k
  {
    WordLenAt(k, []);
    assert k + [] == k;
  }

  /** A key of word characters joined by a hyphen is read back as its last part. */
  lemma ReadKeyHyphen(a: string, b: string)
    requires AllWord(a) && AllWord(b)
    ensures ReadKey(a + ['-'] + b) == b
  {
    var k := a + ['-'] + b;
    assert k == a + (['-'] + b);
    WordLenAt(a, ['-'] + b);
    assert k[|a| + 1..] == b;
    assert ReadKey(k) == ReadKey(b);
    ReadKeyAllWord(b);
  }

  lemma WordNoEquals(k: string)
    requires AllWord(k)
    ensures '=' !in k
  {
  }

  /** A key of word characters is written and read back as itself. */
  lemma WordKeyReads(k: string)
    requires AllWord(k) && k != []
    ensures KeyReads(k, k)
  {
    ReadKeyAllWord(k);
    WordNoEquals(k);
  }

  /** A key as the client writes it: no '=', and read back as r. */
  predicate KeyReads(k: string, r: string) {
    '=' !in k && ReadKey(k) == r && r != []
  }

  /** The keys the client writes are read back as themselves, except the
      digest URI's. */
  lemma ResponseKeys()
    ensures KeyReads(UsernameKey, UsernameKey) && KeyReads(RealmKey, RealmKey) && KeyReads(NonceKey, NonceKey)
    ensures KeyReads(CnonceKey, CnonceKey) && KeyReads(NcKey, NcKey) && KeyReads(QopKey, QopKey)
    ensures KeyReads(DigestUriKey, UriKey) && KeyReads(ResponseKey, ResponseKey) && KeyReads(CharsetKey, CharsetKey)
  {
    KeyUsername();
    KeyRealm();
    KeyNonce();
    KeyCnonce();
    KeyNc();
    KeyQop();
    KeyDigestUri();
    KeyResponse();
    KeyCharset();
  }

  lemma KeyUsername() ensures KeyReads(UsernameKey, UsernameKey) { WordKeyReads(UsernameKey); }
  lemma KeyRealm() ensures KeyReads(RealmKey, RealmKey) { WordKeyReads(RealmKey); }
  lemma KeyNonce() ensures KeyReads(NonceKey, NonceKey) { WordKeyReads(NonceKey); }
  lemma KeyCnonce() ensures KeyReads(CnonceKey, CnonceKey) { WordKeyReads(CnonceKey); }
  lemma KeyNc() ensures KeyReads(NcKey, NcKey) { WordKeyReads(NcKey); }
  lemma KeyQop() ensures KeyReads(QopKey, QopKey) { WordKeyReads(QopKey); }
  lemma KeyResponse() ensures KeyReads(ResponseKey, ResponseKey) { WordKeyReads(ResponseKey); }
  lemma KeyCharset() ensures KeyReads(CharsetKey, CharsetKey) { WordKeyReads(CharsetKey); }

  lemma KeyDigestUri()
    ensures KeyReads(DigestUriKey, UriKey)
  {
    ReadKeyHyphen("digest", UriKey);
    WordNoEquals("digest");
    WordNoEquals(UriKey);
    assert "digest" + ['-'] + UriKey == DigestUriKey;
  }

  const Utf8: string := "utf-8"

  lemma Utf8Bare()
    ensures BareOk(Utf8)
  {
  }

  /** The pairs of the first response, under the keys a reader finds. */
  function ResponsePairs(user: string, realm: string, nonce: string, cnonce: string, nc: string,
                         qop: string, uri: string, response: string): seq<(string, string)>
  {
    [(UsernameKey, user), (RealmKey, realm), (NonceKey, nonce), (CnonceKey, cnonce), (NcKey, nc),
     (QopKey, qop), (UriKey, uri), (ResponseKey, response), (CharsetKey, Utf8)]
  }

  lemma ResponsePairsRead(user: string, realm: string, nonce: string, cnonce: string, nc: string,
                          qop: string, uri: string, response: string)
    ensures Pairs(ResponseFields(user, realm, nonce, cnonce, nc, qop, uri, response))
         == ResponsePairs(user, realm, nonce, cnonce, nc, qop, uri, response)
  {
    var fs := ResponseFields(user, realm, nonce, cnonce, nc, qop, uri, response);
    PairsNine(fs);
    ResponseKeys();
  }

  lemma PairsNine(fs: seq<Field>)
    requires |fs| == 9
    ensures Pairs(fs) == [(ReadKey(fs[0].key), fs[0].value), (ReadKey(fs[1].key), fs[1].value),
                          (ReadKey(fs[2].key), fs[2].value), (ReadKey(fs[3].key), fs[3].value),
                          (ReadKey(fs[4].key), fs[4].value), (ReadKey(fs[5].key), fs[5].value),
                          (ReadKey(fs[6].key), fs[6].value), (ReadKey(fs[7].key), fs[7].value),
                          (ReadKey(fs[8].key), fs[8].value)]
  {
    NineItems(Pairs(fs), (ReadKey(fs[0].key), fs[0].value), (ReadKey(fs[1].key), fs[1].value),
              (ReadKey(fs[2].key), fs[2].value), (ReadKey(fs[3].key), fs[3].value),
              (ReadKey(fs[4].key), fs[4].value), (ReadKey(fs[5].key), fs[5].value),
              (ReadKey(fs[6].key), fs[6].value), (ReadKey(fs[7].key), fs[7].value),
              (ReadKey(fs[8].key), fs[8].value));
  }

  lemma NineItems<T>(r: seq<T>, a0: T, a1: T, a2: T, a3: T, a4: T, a5: T, a6: T, a7: T, a8: T)
    requires |r| == 9 && r[0] == a0 && r[1] == a1 && r[2] == a2 && r[3] == a3 && r[4] == a4
    requires r[5] == a5 && r[6] == a6 && r[7] == a7 && r[8] == a8
    ensures r == [a0, a1, a2, a3, a4, a5, a6, a7, a8]
  {
  }

  lemma ResponseKeysDistinct(user: string, realm: string, nonce: string, cnonce: string, nc: string,
                             qop: string, uri: string, response: string)
    ensures DistinctKeys(ResponsePairs(user, realm, nonce, cnonce, nc, qop, uri, response))
  {
  }

  lemma ResponseFieldsOk(user: string, realm: string, nonce: string, cnonce: string, nc: string,
                         qop: string, uri: string, response: string)
    requires QuotedOk(user) && QuotedOk(realm) && QuotedOk(nonce) && QuotedOk(cnonce) && QuotedOk(uri)
    requires BareOk(nc) && BareOk(qop) && BareOk(response)
    ensures var fs := ResponseFields(user, realm, nonce, cnonce, nc, qop, uri, response);
      forall i :: 0 <= i < |fs| ==> FieldOk(fs[i])
  {
    ResponseKeys();
    Utf8Bare();
    QuotedFieldOk(UsernameKey, UsernameKey, user);
    QuotedFieldOk(RealmKey, RealmKey, realm);
    QuotedFieldOk(NonceKey, NonceKey, nonce);
    QuotedFieldOk(CnonceKey, CnonceKey, cnonce);
    BareFieldOk(NcKey, NcKey, nc);
    BareFieldOk(QopKey, QopKey, qop);
    QuotedFieldOk(DigestUriKey, UriKey, uri);
    BareFieldOk(ResponseKey, ResponseKey, response);
    BareFieldOk(CharsetKey, CharsetKey, Utf8);
    NineFieldsOk(Quoted(UsernameKey, user), Quoted(RealmKey, realm), Quoted(NonceKey, nonce), Quoted(CnonceKey, cnonce),
                 Bare(NcKey, nc), Bare(QopKey, qop), Quoted(DigestUriKey, uri), Bare(ResponseKey, response),
                 Bare(CharsetKey, Utf8));
  }

  lemma QuotedFieldOk(k: string, r: string, v: string)
    requires KeyReads(k, r) && QuotedOk(v)
    ensures FieldOk(Quoted(k, v))
  {
  }

  lemma BareFieldOk(k: string, r: string, v: string)
    requires KeyReads(k, r) && BareOk(v)
    ensures FieldOk(Bare(k, v))
  {
  }

  lemma NineFieldsOk(f0: Field, f1: Field, f2: Field, f3: Field, f4: Field, f5: Field, f6: Field, f7: Field, f8: Field)
    requires FieldOk(f0) && FieldOk(f1) && FieldOk(f2) && FieldOk(f3) && FieldOk(f4)
    requires FieldOk(f5) && FieldOk(f6) && FieldOk(f7) && FieldOk(f8)
    ensures var fs := [f0, f1, f2, f3, f4, f5, f6, f7, f8];
      forall i :: 0 <= i < |fs| ==> FieldOk(fs[i])
  {
  }

  /** What the client writes, a reader of challenges reads back field by field,
      each value under its own key (the digest URI under "uri"). */
  lemma ResponseFieldsReadBack(user: string, realm: string, nonce: string, cnonce: string, nc: string,
                               qop: string, uri: string, response: string)
    requires QuotedOk(user) && QuotedOk(realm) && QuotedOk(nonce) && QuotedOk(cnonce) && QuotedOk(uri)
    requires BareOk(nc) && BareOk(qop) && BareOk(response)
    ensures ParseChallenge(RenderFields(ResponseFields(user, realm, nonce, cnonce, nc, qop, uri, response)))
         == ResponsePairs(user, realm, nonce, cnonce, nc, qop, uri, response)
  {
    ResponseFieldsOk(user, realm, nonce, cnonce, nc, qop, uri, response);
    ResponsePairsRead(user, realm, nonce, cnonce, nc, qop, uri, response);
    ResponseKeysDistinct(user, realm, nonce, cnonce, nc, qop, uri, response);
    ParseRender(ResponseFields(user, realm, nonce, cnonce, nc, qop, uri, response));
  }

  /** The first response read back: the user name and realm after the realm
      rule, the challenge's nonce, the client nonce, count 00000001, qop
      "auth", the digest URI under "uri", the digest and the charset. */
  lemma ChallengeReplyReadBack(vars: Dict<string, string>, user: string, password: string, server: string,
                               cnonce: string, c: Crypto)
    requires HasKey(vars, "nonce")
    requires QuotedOk(ReplyUser(vars, user)) && QuotedOk(ReplyRealm(vars, user)) && QuotedOk(Lookup(vars, "nonce"))
    requires QuotedOk(cnonce) && QuotedOk(ReplyUri(vars, server))
    ensures var u, realm, uri, nonce := ReplyUser(vars, user), ReplyRealm(vars, user), ReplyUri(vars, server), Lookup(vars, "nonce");
      ParseChallenge(ChallengeReply(vars, user, password, server, cnonce, c).text)
      == ResponsePairs(u, realm, nonce, cnonce, FirstCount, QopAuth, uri,
                       DigestResponse(c, u, realm, password, nonce, cnonce, FirstCount, QopAuth, uri, Lookup(vars, "algorithm")))
  {
    var u, realm, uri, nonce := ReplyUser(vars, user), ReplyRealm(vars, user), ReplyUri(vars, server), Lookup(vars, "nonce");
    var resp := DigestResponse(c, u, realm, password, nonce, cnonce, FirstCount, QopAuth, uri, Lookup(vars, "algorithm"));
    ChallengeReplyText(vars, user, password, server, cnonce, c);
    CountAuthBare();
    HexBare(c.md5(Md5Hex(c, if Lookup(vars, "algorithm") == "md5-sess"
                            then Unhex(Md5Hex(c, u + ":" + realm + ":" + password)) + ":" + nonce + ":" + cnonce
                            else u + ":" + realm + ":" + password)
                  + ":" + nonce + ":" + FirstCount + ":" + cnonce + ":" + QopAuth + ":" + Md5Hex(c, "AUTHENTICATE:" + uri)));
    ResponseFieldsReadBack(u, realm, nonce, cnonce, FirstCount, QopAuth, uri, resp);
  }

  // ---------------------------------------------------------------------------
  // The reference definition: section 2.1.2.1 of RFC 2831

  /** KD(k, s) = H(k ":" s), H being the raw MD5 digest. */
  function KD(c: Crypto, k: string, s: string): string {
    c.md5(k + ":" + s)
  }

  /** response-value for qop "auth" and no authzid: A1 is
      H(user ":" realm ":" password) ":" nonce ":" cnonce, A2 is
      "AUTHENTICATE:" digest-uri. */
  function ResponseValue(c: Crypto, user: string, realm: string, password: string, nonce: string, cnonce: string,
                         nc: string, qop: string, uri: string): string
  {
    var a1 := c.md5(user + ":" + realm + ":" + password) + ":" + nonce + ":" + cnonce;
    var a2 := "AUTHENTICATE:" + uri;
    Hex(KD(c, Hex(c.md5(a1)), nonce + ":" + nc + ":" + cnonce + ":" + qop + ":" + Hex(c.md5(a2))))
  }

  /** With md5-sess the client's digest is the response-value of RFC 2831,
      provided the digest function yields bytes. */
  lemma DigestIsRfc2831(c: Crypto, user: string, realm: string, password: string, nonce: string, cnonce: string,
                        nc: string, qop: string, uri: string)
    requires forall x :: Bytes(c.md5(x))
    ensures DigestResponse(c, user, realm, password, nonce, cnonce, nc, qop, uri, "md5-sess")
         == ResponseValue(c, user, realm, password, nonce, cnonce, nc, qop, uri)
  {
    var h := c.md5(user + ":" + realm + ":" + password);
    UnhexHex(h);
    assert Unhex(Md5Hex(c, user + ":" + realm + ":" + password)) == h;
    var x := Md5Hex(c, h + ":" + nonce + ":" + cnonce);
    KDGrouping(x, nonce, nc, cnonce, qop, Md5Hex(c, "AUTHENTICATE:" + uri));
  }

  lemma KDGrouping(x: string, nonce: string, nc: string, cnonce: string, qop: string, y: string)
    ensures x + ":" + nonce + ":" + nc + ":" + cnonce + ":" + qop + ":" + y
         == x + ":" + (nonce + ":" + nc + ":" + cnonce + ":" + qop + ":" + y)
  {
  }
}
