/**
 * The JSON text of a metrics snapshot. The server writes a snapshot with
 * Python's `json.dumps` (default separators `", "` and `": "`) into the
 * `metrics_data` and `previous_values` text columns; the browser reads it
 * back with `JSON.parse`. This module writes the flat objects of integer
 * metrics the server produces and parses the same family of texts, with any
 * JSON whitespace between tokens; everything else (strings with escapes,
 * fractions, nested values, non-object texts) is reported as unparseable.
 */
module Json {
  import opened Wrappers
  import opened Snapshots
  import opened Strings

  /**
   * A character `json.dumps` copies into a string literal without escaping
   * it: printable ASCII other than the quote and the backslash (DEL and
   * everything above it is written as a `\u` escape).
   */
  predicate PlainChar(c: char) {
    ' ' <= c <= '~' && c != '"' && c != '\\'
  }

  predicate PlainKey(k: string) {
    forall i :: 0 <= i < |k| ==> PlainChar(k[i])
  }

  /** Every key can be written without escapes (true of every metric field name). */
  predicate Encodable(s: Snapshot) {
    forall i :: 0 <= i < |s| ==> PlainKey(s[i].key)
  }

  function Member(f: Field): string {
    "\"" + f.key + "\": " + IntToString(f.value)
  }

  function Members(s: Snapshot): string {
    if s == [] then ""
    else if |s| == 1 then Member(s[0])
    else Member(s[0]) + ", " + Members(s[1..])
  }

  /**
   * `json.dumps(d)` of a dictionary of integer metrics. Keys are copied
   * verbatim, which is what `json.dumps` does for an `Encodable` dictionary;
   * escape sequences are not modelled.
   */
  function Dumps(s: Snapshot): string {
    "{" + Members(s) + "}"
  }

  // ---------------------------------------------------------------- parsing

  predicate IsWs(c: char) {
    c == ' ' || c == '\t' || c == '\n' || c == '\r'
  }

  function SkipWs(s: string): (r: string)
    ensures |r| <= |s|
  {
    if s != [] && IsWs(s[0]) then SkipWs(s[1..]) else s
  }

  /** The characters of a string literal up to its closing quote, and what follows it. */
  function ParseKeyChars(s: string): (r: Option<(string, string)>)
    ensures r.Some? ==> |r.value.1| < |s|
  {
    if s == [] then None
    else if s[0] == '"' then Some(("", s[1..]))
    else if s[0] == '\\' || s[0] < ' ' then None
    else
      match ParseKeyChars(s[1..])
      case None => None
      case Some((k, rest)) => Some(([s[0]] + k, rest))
  }

  /** The longest prefix of decimal digits. */
  function TakeDigits(s: string): (d: string)
    ensures |d| <= |s| && d == s[..|d|] && AllDigits(d)
  {
    if s != [] && IsDigit(s[0]) then [s[0]] + TakeDigits(s[1..]) else []
  }

  /** A JSON natural number: `0`, or a digit 1-9 followed by digits. */
  function ParseNat(s: string): (r: Option<(nat, string)>)
    ensures r.Some? ==> |r.value.1| < |s|
  {
    if s == [] || !IsDigit(s[0]) then None
    else if s[0] == '0' then Some((0, s[1..]))
    else
      var d := TakeDigits(s);
      Some((DigitsValue(d), s[|d|..]))
  }

  function ParseInt(s: string): (r: Option<(int, string)>)
    ensures r.Some? ==> |r.value.1| < |s|
  {
    if s != [] && s[0] == '-' then
      var r := ParseNat(s[1..]);
      if r.None? then None else Some((-(r.value.0 as int), r.value.1))
    else
      var r := ParseNat(s);
      if r.None? then None else Some((r.value.0 as int, r.value.1))
  }

  /** One member `"key": value` and the text after it, leading whitespace skipped. */
  function ParseMember(s: string): (r: Option<(string, int, string)>)
    ensures r.Some? ==> |r.value.2| < |s|
  {
    if s == [] || s[0] != '"' then None
    else
      match ParseKeyChars(s[1..])
      case None => None
      case Some((k, r1)) =>
        var r2 := SkipWs(r1);
        if r2 == [] || r2[0] != ':' then None
        else
          match ParseInt(SkipWs(r2[1..]))
          case None => None
          case Some((v, r4)) => Some((k, v, SkipWs(r4)))
  }

  /**
   * The members of an object after its `{`, each assigned into `acc` as
   * `JSON.parse` does (a repeated key keeps its first position and its last
   * value), and the text after the closing `}`.
   */
  function ParseMembers(s: string, acc: Snapshot): Option<(Snapshot, string)>
    decreases |s|
  {
    match ParseMember(s)
    case None => None
    case Some((k, v, r)) =>
      var acc' := Put(acc, k, v);
      if r != [] && r[0] == ',' then ParseMembers(SkipWs(r[1..]), acc')
      else if r != [] && r[0] == '}' then Some((acc', r[1..]))
      else None
  }

  /** `JSON.parse(t)`: the object `t` denotes, or None where `JSON.parse` would throw. */
  function Parse(t: string): Option<Snapshot> {
    var t1 := SkipWs(t);
    if t1 == [] || t1[0] != '{' then None
    else
      var t2 := SkipWs(t1[1..]);
      var obj: Option<(Snapshot, string)> := if t2 != [] && t2[0] == '}' then Some(([], t2[1..])) else ParseMembers(t2, []);
      match obj
      case None => None
      case Some((o, rest)) => if SkipWs(rest) == [] then Some(o) else None
  }

  // ------------------------------------------------------------- round trip

  lemma {:induction false} KeyRoundTrip(k: string, rest: string)
    requires PlainKey(k)
    ensures ParseKeyChars(k + "\"" + rest) == Some((k, rest))
  {
    if k != [] {
      assert (k + "\"" + rest)[1..] == k[1..] + "\"" + rest;
      KeyRoundTrip(k[1..], rest);
      assert [k[0]] + k[1..] == k;
    }
  }

  lemma {:induction false} TakeDigitsRun(d: string, rest: string)
    requires AllDigits(d)
    requires rest == [] || !IsDigit(rest[0])
    ensures TakeDigits(d + rest) == d
  {
    if d != [] {
      assert (d + rest)[1..] == d[1..] + rest;
      TakeDigitsRun(d[1..], rest);
      assert [d[0]] + d[1..] == d;
    }
  }

  lemma NatRoundTrip(n: nat, rest: string)
    requires rest == [] || !IsDigit(rest[0])
    ensures ParseNat(NatToString(n) + rest) == Some((n, rest))
  {
    var d := NatToString(n);
    NatToStringShape(n);
    NatToStringValue(n);
    var s := d + rest;
    assert s[0] == d[0];
    if n == 0 {
      assert d == "0";
      assert s[1..] == rest;
    } else {
      TakeDigitsRun(d, rest);
      assert s[|d|..] == rest;
    }
  }

  lemma IntRoundTrip(n: int, rest: string)
    requires rest == [] || !IsDigit(rest[0])
    ensures ParseInt(IntToString(n) + rest) == Some((n, rest))
  {
    var m: nat := if n < 0 then -n else n;
    var d := NatToString(m);
    NatToStringShape(m);
    NatRoundTrip(m, rest);
    if n < 0 {
      assert IntToString(n) == "-" + d;
      ParseNegative(d, m, rest);
    } else {
      assert IntToString(n) == d;
      ParseNonNegative(d, m, rest);
    }
  }

  lemma ParseNegative(d: string, m: nat, rest: string)
    requires ParseNat(d + rest) == Some((m, rest))
    ensures ParseInt("-" + d + rest) == Some((-(m as int), rest))
  {
    var s := "-" + d + rest;
    assert s[0] == '-' && s[1..] == d + rest;
  }

  lemma ParseNonNegative(d: string, m: nat, rest: string)
    requires d != [] && IsDigit(d[0])
    requires ParseNat(d + rest) == Some((m, rest))
    ensures ParseInt(d + rest) == Some((m as int, rest))
  {
    assert (d + rest)[0] == d[0];
  }

  lemma SkipWsStops(t: string)
    requires t == [] || !IsWs(t[0])
    ensures SkipWs(t) == t
  {
  }

  /** Parsing one written member and the text after it. */
  lemma MemberRoundTrip(f: Field, after: string, acc: Snapshot)
    requires PlainKey(f.key)
    requires after != [] && (after[0] == ',' || after[0] == '}')
    ensures ParseMembers(Member(f) + after, acc) ==
      var acc' := Put(acc, f.key, f.value);
      if after[0] == ',' then ParseMembers(SkipWs(after[1..]), acc') else Some((acc', after[1..]))
  {
    MemberParses(f, after);
  }

  /** A written member parses back to its key and value, and what follows it. */
  lemma MemberParses(f: Field, after: string)
    requires PlainKey(f.key)
    requires after != [] && (after[0] == ',' || after[0] == '}')
    ensures ParseMember(Member(f) + after) == Some((f.key, f.value, after))
  {
    var num := IntToString(f.value);
    var r1 := ": " + (num + after);
    MemberText(f, after);
    KeyRoundTrip(f.key, r1);
    NumeralStart(f.value);
    AfterColon(num, after);
    IntRoundTrip(f.value, after);
    SkipWsStops(after);
  }

  lemma MemberText(f: Field, after: string)
    requires PlainKey(f.key)
    ensures (Member(f) + after)[0] == '"'
    ensures (Member(f) + after)[1..] == f.key + "\"" + (": " + (IntToString(f.value) + after))
  {
    var num := IntToString(f.value);
    Concat5("\"", f.key, "\": ", num, after);
    assert "\"" + f.key + "\": " + num + after == "\"" + (f.key + "\"" + (": " + (num + after)));
  }

  lemma NumeralStart(n: int)
    ensures IntToString(n) != [] && !IsWs(IntToString(n)[0])
  {
    NatToStringShape(if n < 0 then -n else n);
  }

  lemma AfterColon(num: string, after: string)
    requires num != [] && !IsWs(num[0])
    ensures SkipWs(": " + (num + after)) == ": " + (num + after)
    ensures SkipWs((": " + (num + after))[1..]) == num + after
  {
    var t := num + after;
    assert t[0] == num[0];
    assert (": " + t)[1..] == " " + t;
    assert (" " + t)[1..] == t;
  }

  lemma {:induction false} MembersRoundTrip(s: Snapshot, rest: string, acc: Snapshot)
    requires s != [] && Encodable(s)
    ensures ParseMembers(Members(s) + "}" + rest, acc) == Some((PutAll(acc, s), rest))
    decreases |s|
  {
    var acc' := Put(acc, s[0].key, s[0].value);
    if |s| == 1 {
      LastMemberText(s, rest);
      MemberRoundTrip(s[0], "}" + rest, acc);
      assert ("}" + rest)[1..] == rest;
    } else {
      EncodableTail(s);
      var tail := Members(s[1..]) + "}" + rest;
      NextMemberText(s, rest);
      MemberRoundTrip(s[0], ", " + tail, acc);
      MembersStartWithQuote(s[1..]);
      assert tail[0] == Members(s[1..])[0];
      SkipSeparator(tail);
      MembersRoundTrip(s[1..], rest, acc');
    }
  }

  lemma EncodableTail(s: Snapshot)
    requires s != [] && Encodable(s)
    ensures Encodable(s[1..])
  {
    forall i | 0 <= i < |s[1..]| ensures PlainKey(s[1..][i].key) {
      assert s[1..][i] == s[i + 1];
    }
  }

  lemma LastMemberText(s: Snapshot, rest: string)
    requires |s| == 1 && Encodable(s)
    ensures Members(s) + "}" + rest == Member(s[0]) + ("}" + rest)
  {
  }

  lemma NextMemberText(s: Snapshot, rest: string)
    requires |s| > 1 && Encodable(s) && Encodable(s[1..])
    ensures Members(s) + "}" + rest == Member(s[0]) + (", " + (Members(s[1..]) + "}" + rest))
  {
    var a, c := Member(s[0]), Members(s[1..]);
    assert Members(s) == a + ", " + c;
    Concat5(a, ", ", c, "}", rest);
  }

  lemma Concat5(a: string, b: string, c: string, d: string, e: string)
    ensures a + b + c + d + e == a + (b + (c + d + e))
  {
  }

  lemma MembersStartWithQuote(s: Snapshot)
    requires s != [] && Encodable(s)
    ensures |Members(s)| > 0 && Members(s)[0] == '"'
  {
    var m := Member(s[0]);
    MemberStartsWithQuote(s[0]);
    if |s| > 1 {
      var t := ", " + Members(s[1..]);
      assert Members(s) == m + t;
      assert (m + t)[0] == m[0];
    }
  }

  lemma MemberStartsWithQuote(f: Field)
    ensures |Member(f)| > 0 && Member(f)[0] == '"'
  {
    assert Member(f) == "\"" + (f.key + "\": " + IntToString(f.value));
  }

  lemma SkipSeparator(tail: string)
    requires tail != [] && tail[0] == '"'
    ensures SkipWs((", " + tail)[1..]) == tail
  {
    assert (", " + tail)[1..] == " " + tail;
    assert (" " + tail)[1..] == tail;
  }

  /** What the server writes, the browser reads back unchanged. */
  lemma DumpsRoundTrip(s: Snapshot)
    requires Encodable(s) && UniqueKeys(s)
    ensures Parse(Dumps(s)) == Some(s)
  {
    if s == [] {
      assert Dumps(s) == "{}";
    } else {
      var body := Members(s) + "}";
      assert Dumps(s) == "{" + body;
      MembersStartWithQuote(s);
      assert body[0] == '"';
      ParseOpenBrace(body);
      assert body + "" == body;
      MembersRoundTrip(s, "", []);
      PutAllFresh([], s);
      assert [] + s == s;
    }
  }

  /** An object whose text after `{` starts with a key is parsed member by member. */
  lemma ParseOpenBrace(body: string)
    requires body != [] && body[0] == '"'
    ensures Parse("{" + body) ==
      match ParseMembers(body, [])
      case None => None
      case Some((o, rest)) => if SkipWs(rest) == [] then Some(o) else None
  {
    var t := "{" + body;
    assert t[0] == '{' && t[1..] == body;
    SkipWsStops(t);
    SkipWsStops(body);
  }

  /** Whatever `JSON.parse` yields is an object: no key occurs twice. */
  lemma {:induction false} ParseMembersUnique(s: string, acc: Snapshot)
    requires UniqueKeys(acc)
    ensures ParseMembers(s, acc).Some? ==> UniqueKeys(ParseMembers(s, acc).value.0)
    decreases |s|
  {
    match ParseMember(s)
    case None =>
    case Some((k, v, r)) =>
      PutSpec(acc, k, v);
      if r != [] && r[0] == ',' {
        ParseMembersUnique(SkipWs(r[1..]), Put(acc, k, v));
      }
  }

  lemma ParseUnique(t: string)
    ensures Parse(t).Some? ==> UniqueKeys(Parse(t).value)
  {
    var t1 := SkipWs(t);
    if t1 != [] && t1[0] == '{' {
      ParseMembersUnique(SkipWs(t1[1..]), []);
    }
  }

  /** The malformed payload `{not valid json` does not parse. */
  lemma ParseRejectsMalformed()
    ensures Parse("{not valid json") == None
  {
    var t := "{not valid json";
    assert SkipWs(t) == t;
    assert t[1..] == "not valid json";
    assert SkipWs(t[1..]) == "not valid json";
  }
}
