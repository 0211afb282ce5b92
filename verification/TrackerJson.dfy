/** The tracker list as JSON: the wrapper's printer and its own small parser. */
module TrackerJson {
  import opened Text

  datatype Tracker = Tracker(tier: int, url: string)

  const NUL: char := '\0'

  // ── Printing ─────────────────────────────────────────────────────────────

  function HexDigit(d: nat): char
    requires d < 16
  {
    if d < 10 then (48 + d) as char else (87 + d) as char
  }

  /** One byte of a URL inside a JSON string (section 7 of RFC 8259). */
  function Escape(c: char): (s: string)
    ensures s != "" && NUL !in s
  {
    if c == '"' then "\\\""
    else if c == '\\' then "\\\\"
    else if c as int == 8 then "\\b"
    else if c as int == 12 then "\\f"
    else if c == '\n' then "\\n"
    else if c == '\r' then "\\r"
    else if c == '\t' then "\\t"
    else if c as int < 0x20 then ['\\', 'u', '0', '0', HexDigit(c as int / 16), HexDigit(c as int % 16)]
    else [c]
  }

  function EscapeAll(url: string): string {
    if url == "" then "" else Escape(url[0]) + EscapeAll(url[1..])
  }

  function TrackerText(t: Tracker): string {
    "{\"tier\":" + ToDecInt(t.tier) + ",\"url\":\"" + EscapeAll(t.url) + "\"}"
  }

  /** The entries, each after the first with its comma, and the closing bracket. */
  function RestText(f: Tracker -> string, trackers: seq<Tracker>): string {
    if trackers == [] then "]" else "," + f(trackers[0]) + RestText(f, trackers[1..])
  }

  function ListText(f: Tracker -> string, trackers: seq<Tracker>): string {
    "[" + if trackers == [] then "]" else f(trackers[0]) + RestText(f, trackers[1..])
  }

  function TrackersText(trackers: seq<Tracker>): string { ListText(TrackerText, trackers) }

  // ── Parsing, on what is left of a NUL-terminated string ──────────────────

  /** The character the pointer is at. */
  function Peek(s: string): char { if s == "" then NUL else s[0] }

  predicate IsSpace(c: char) { c == ' ' || 9 <= c as int <= 13 }

  function SkipWs(s: string): (r: string)
    ensures |r| <= |s|
  {
    if s != "" && IsSpace(s[0]) then SkipWs(s[1..]) else s
  }

  /** The hexadecimal digits at the front of `s`, after the value `acc`. */
  function HexRun(s: string, acc: nat): nat {
    if s == "" || !IsHex(s[0]) then acc else HexRun(s[1..], acc * 16 + HexValue(s[0]))
  }

  /** `strtoul(s, nullptr, 16)` cast to `unsigned int`, for at most four characters. */
  function Strtoul16(s: string): nat {
    var t := SkipWs(s);
    var u := if t != "" && (t[0] == '+' || t[0] == '-') then t[1..] else t;
    var v := if |u| > 2 && u[0] == '0' && (u[1] == 'x' || u[1] == 'X') && IsHex(u[2]) then u[2..] else u;
    var n := HexRun(v, 0);
    if t != "" && t[0] == '-' then (U64 - n % U64) % 0x1_0000_0000 else n % 0x1_0000_0000
  }

  /** UTF-8 of a code point, as the parser's shifts and masks make it. */
  function Utf8(cp: nat): string {
    if cp < 0x80 then [cp as char]
    else if cp < 0x800 then [(0xC0 + cp / 64) as char, (0x80 + cp % 64) as char]
    else [(0xE0 + (cp / 4096) % 32) as char, (0x80 + (cp / 64) % 64) as char, (0x80 + cp % 64) as char]
  }

  /** What an escape stands for, from the character after the backslash. */
  function Unescape(s: string): (r: Read<string>)
    requires s != ""
    ensures |r.rest| < |s|
  {
    var c := s[0];
    if c == 'n' then Read("\n", s[1..])
    else if c == 't' then Read("\t", s[1..])
    else if c == 'r' then Read("\r", s[1..])
    else if c == 'b' then Read([8 as char], s[1..])
    else if c == 'f' then Read([12 as char], s[1..])
    else if c == 'u' then
      if |s| >= 5 && NUL !in s[1..5] then Read(Utf8(Strtoul16(s[1..5])), s[5..]) else Read("", s[1..])
    else Read([c], s[1..])
  }

  /** A string's contents, from after its opening quote to after the closing one. */
  function StringBody(s: string): (r: Read<string>)
    ensures |r.rest| <= |s|
    decreases |s|
  {
    if Peek(s) == NUL then Read("", s)
    else if s[0] == '"' then Read("", s[1..])
    else if s[0] == '\\' && Peek(s[1..]) != NUL then
      var u := Unescape(s[1..]);
      var r := StringBody(u.rest);
      Read(u.value + r.value, r.rest)
    else
      var r := StringBody(s[1..]);
      Read([s[0]] + r.value, r.rest)
  }

  function DigitRun(s: string, acc: int): (r: Read<int>)
    ensures |r.rest| <= |s|
  {
    if s != "" && IsDigit(s[0]) then DigitRun(s[1..], acc * 10 + (s[0] as int - 48)) else Read(acc, s)
  }

  function ParseInt(s: string): (r: Read<int>)
    ensures |r.rest| <= |s|
  {
    if Peek(s) == '-' then var r := DigitRun(s[1..], 0); Read(-r.value, r.rest) else DigitRun(s, 0)
  }

  /** `static_cast<int>` of a 64-bit value. */
  function AsInt32(n: int): int {
    var m := n % 0x1_0000_0000; if m < 0x8000_0000 then m else m - 0x1_0000_0000
  }

  /** An entry while its members are read. */
  datatype Partial = Partial(tier: int, url: Option<string>)

  function SkipComma(s: string): (r: string)
    ensures |r| <= |s|
  {
    if Peek(s) == ',' then SkipWs(s[1..]) else s
  }

  /** The value of a member, from after its colon. */
  function MemberValue(key: string, s: string, e: Partial): (r: Option<Read<Partial>>)
    ensures r.Some? ==> |r.value.rest| <= |s|
  {
    if key == "tier" then
      var n := ParseInt(s); Some(Read(e.(tier := AsInt32(n.value)), n.rest))
    else if key == "url" then
      if Peek(s) != '"' then None
      else var u := StringBody(s[1..]); Some(Read(e.(url := Some(u.value)), u.rest))
    else if Peek(s) == '"' then Some(Read(e, StringBody(s[1..]).rest))
    else Some(Read(e, ParseInt(s).rest))
  }

  /** A member's name; what is left starts with its value. */
  function ParseKey(s: string): (r: Option<Read<string>>)
    ensures r.Some? ==> |r.value.rest| < |s|
  {
    var s1 := SkipWs(s);
    if Peek(s1) != '"' then None
    else
      var key := StringBody(s1[1..]);
      var s2 := SkipWs(key.rest);
      if Peek(s2) != ':' then None else Some(Read(key.value, SkipWs(s2[1..])))
  }

  /** One member, up to after the comma that may follow it. */
  function ParseMember(s: string, e: Partial): (r: Option<Read<Partial>>)
    ensures r.Some? ==> |r.value.rest| < |s|
  {
    var key := ParseKey(s);
    if key.None? then None
    else
      var m := MemberValue(key.value.value, key.value.rest, e);
      if m.None? then None else Some(Read(m.value.value, SkipComma(SkipWs(m.value.rest))))
  }

  function ParseMembers(s: string, e: Partial): (r: Option<Read<Partial>>)
    ensures r.Some? ==> |r.value.rest| <= |s|
    decreases |s|
  {
    if Peek(s) == NUL || Peek(s) == '}' then Some(Read(e, s))
    else
      var m := ParseMember(s, e);
      if m.None? then None else ParseMembers(m.value.rest, m.value.value)
  }

  /** The members of an object, from its brace on. */
  function ParseObject(s: string): (r: Option<Read<Partial>>)
    ensures r.Some? ==> |r.value.rest| < |s|
  {
    if Peek(s) != '{' then None else ParseMembers(SkipWs(s[1..]), Partial(0, None))
  }

  /** One object, up to after the comma that may follow it. */
  function ParseEntry(s: string): (r: Option<Read<Tracker>>)
    ensures r.Some? ==> |r.value.rest| < |s|
  {
    var m := ParseObject(s);
    if m.None? || m.value.value.url.None? || Peek(m.value.rest) != '}' then None
    else Some(Read(Tracker(m.value.value.tier, m.value.value.url.value), SkipComma(SkipWs(m.value.rest[1..]))))
  }

  function ParseEntries(s: string): (r: Option<seq<Tracker>>)
    decreases |s|
  {
    if Peek(s) == ']' then Some([])
    else if Peek(s) == NUL then None
    else
      var e := ParseEntry(s);
      if e.None? then None
      else
        var others := ParseEntries(e.value.rest);
        if others.None? then None else Some([e.value.value] + others.value)
  }

  function ParseTrackers(json: string): Option<seq<Tracker>> {
    var s := SkipWs(json);
    if Peek(s) != '[' then None else ParseEntries(SkipWs(s[1..]))
  }

  // ── Round trip ───────────────────────────────────────────────────────────

  lemma {:induction false} NoWs(s: string)
    requires s == "" || !IsSpace(s[0])
    ensures SkipWs(s) == s
  {
  }

  lemma {:induction false} HexOf(c: char)
    requires c as int < 0x20
    ensures Strtoul16(['0', '0', HexDigit(c as int / 16), HexDigit(c as int % 16)]) == c as int
  {
    var a, b := HexDigit(c as int / 16), HexDigit(c as int % 16);
    var s := ['0', '0', a, b];
    assert s[1..] == ['0', a, b] && s[1..][1..] == [a, b] && s[1..][1..][1..] == [b] && s[1..][1..][1..][1..] == "";
    assert HexRun([b], c as int / 16) == c as int;
    assert HexRun([a, b], 0) == HexRun([b], c as int / 16);
    assert HexRun(['0', a, b], 0) == HexRun([a, b], 0);
    assert HexRun(s, 0) == c as int;
    NoWs(s);
  }

  lemma {:induction false} ControlBack(c: char, rest: string)
    requires |Escape(c)| > 2
    ensures var r := StringBody(rest); StringBody(Escape(c) + rest) == Read([c] + r.value, r.rest)
  {
    var code := Escape(c)[2..];
    HexOf(c);
    assert Escape(c) + rest == "\\" + (['u'] + code + rest);
    CodeBack(code, c, rest);
    EscapedBody(['u'] + code + rest);
  }

  lemma {:induction false} EscapedBody(tail: string)
    requires tail != "" && tail[0] != NUL
    ensures var u := Unescape(tail);
            var r := StringBody(u.rest);
            StringBody("\\" + tail) == Read(u.value + r.value, r.rest)
  {
    assert ("\\" + tail)[1..] == tail;
  }

  lemma {:induction false} CodeBack(code: string, c: char, rest: string)
    requires |code| == 4 && NUL !in code && Strtoul16(code) == c as int < 0x20
    ensures Unescape(['u'] + code + rest) == Read([c], rest)
  {
    var s := ['u'] + code + rest;
    assert s[1..5] == code && s[5..] == rest;
  }

  /** An escaped byte is read back, whatever follows. */
  lemma {:induction false} EscapeBack(c: char, rest: string)
    ensures var r := StringBody(rest); StringBody(Escape(c) + rest) == Read([c] + r.value, r.rest)
  {
    var s := Escape(c) + rest;
    if |Escape(c)| == 1 {
      assert s[1..] == rest && s[0] == c;
    } else if |Escape(c)| == 2 {
      assert s[1..][1..] == rest;
      assert Unescape(s[1..]) == Read([c], rest);
    } else {
      ControlBack(c, rest);
    }
  }

  lemma {:induction false} UrlBack(url: string, rest: string)
    ensures StringBody(EscapeAll(url) + ("\"" + rest)) == Read(url, rest)
  {
    if url == "" {
      assert "" + ("\"" + rest) == "\"" + rest && ("\"" + rest)[1..] == rest;
    } else {
      var tail := EscapeAll(url[1..]) + ("\"" + rest);
      assert EscapeAll(url) + ("\"" + rest) == Escape(url[0]) + tail;
      EscapeBack(url[0], tail);
      UrlBack(url[1..], rest);
      assert [url[0]] + url[1..] == url;
    }
  }

  /** A decimal number is read to its end. */
  lemma {:induction false} DigitsBack(digits: string, acc: nat, rest: string)
    requires AllDigits(digits) && (rest == "" || !IsDigit(rest[0]))
    ensures DigitRun(digits + rest, acc) == Read(acc * Pow10(|digits|) + DigitsValue(digits), rest)
  {
    if digits == "" {
      assert digits + rest == rest;
    } else {
      FrontDigits(digits);
      assert (digits + rest)[1..] == digits[1..] + rest;
      var d := digits[0] as int - 48;
      DigitsBack(digits[1..], acc * 10 + d, rest);
      Shift(acc, d, Pow10(|digits| - 1));
    }
  }

  lemma {:induction false} Shift(acc: int, d: int, p: int)
    ensures (acc * 10 + d) * p == acc * (10 * p) + d * p
  {
  }

  function Pow10(n: nat): nat { if n == 0 then 1 else 10 * Pow10(n - 1) }

  /** The value of digits, taken from the front. */
  lemma {:induction false} FrontDigits(s: string)
    requires AllDigits(s) && s != ""
    ensures IsDigit(s[0]) && AllDigits(s[1..])
    ensures DigitsValue(s) == (s[0] as int - 48) * Pow10(|s| - 1) + DigitsValue(s[1..])
  {
    if |s| == 1 {
      assert s[..0] == "" && s[1..] == "";
    } else {
      var front, last := s[..|s| - 1], s[|s| - 1];
      FrontDigits(front);
      assert s[1..][..|s| - 2] == front[1..] && s[1..][|s| - 2] == last;
      assert DigitsValue(s[1..]) == DigitsValue(front[1..]) * 10 + (last as int - 48);
      Shift10(s[0] as int - 48, Pow10(|s| - 2), DigitsValue(front[1..]));
    }
  }

  lemma {:induction false} Shift10(d: int, p: int, v: int)
    ensures (d * p + v) * 10 == d * (10 * p) + v * 10
  {
  }

  lemma {:induction false} IntBack(i: int, rest: string)
    requires rest == "" || !IsDigit(rest[0])
    ensures ParseInt(ToDecInt(i) + rest) == Read(i, rest)
  {
    NatBack(if i < 0 then -i else i, rest);
    if i < 0 {
      assert ToDecInt(i) + rest == "-" + (ToDec(-i) + rest);
      NegativeBack(ToDec(-i) + rest);
    }
  }

  lemma {:induction false} NatBack(n: nat, rest: string)
    requires rest == "" || !IsDigit(rest[0])
    ensures DigitRun(ToDec(n) + rest, 0) == Read(n, rest) && Peek(ToDec(n) + rest) != '-'
  {
    DecRoundTrip(n);
    DigitsBack(ToDec(n), 0, rest);
    assert IsDigit(ToDec(n)[0]) && (ToDec(n) + rest)[0] == ToDec(n)[0];
  }

  lemma {:induction false} NegativeBack(body: string)
    ensures ParseInt("-" + body) == Read(-DigitRun(body, 0).value, DigitRun(body, 0).rest)
  {
    assert ("-" + body)[1..] == body;
  }

  predicate IsInt32(i: int) { -0x8000_0000 <= i < 0x8000_0000 }

  /** A member name, its colon and the start of its value. */
  lemma {:induction false} KeyBack(key: string, value: string, e: Partial)
    requires EscapeAll(key) == key && (value == "" || !IsSpace(value[0]))
    ensures var m := MemberValue(key, value, e);
            ParseMembers("\"" + key + "\":" + value, e) ==
            if m.None? then None else ParseMembers(SkipComma(SkipWs(m.value.rest)), m.value.value)
  {
    var s := "\"" + key + "\":" + value;
    NoWs(s);
    assert s[1..] == EscapeAll(key) + ("\"" + (":" + value));
    UrlBack(key, ":" + value);
    NoWs(":" + value);
    assert (":" + value)[1..] == value;
    NoWs(value);
  }

  lemma {:induction false} PlainKey(key: string)
    requires forall i :: 0 <= i < |key| ==> Escape(key[i]) == [key[i]]
    ensures EscapeAll(key) == key
  {
    if key != "" {
      PlainKey(key[1..]);
      assert [key[0]] + key[1..] == key;
    }
  }

  lemma {:induction false} UrlText(url: string, rest: string)
    ensures "\"url\":\"" + url + "\"}" + rest == "\"" + "url" + "\":" + ("\"" + (url + ("\"" + ("}" + rest))))
  {
  }

  lemma {:induction false} UrlMember(t: Tracker, rest: string)
    ensures ParseMembers("\"url\":\"" + EscapeAll(t.url) + "\"}" + rest, Partial(t.tier, None)) ==
            Some(Read(Partial(t.tier, Some(t.url)), "}" + rest))
  {
    var inside := EscapeAll(t.url) + ("\"" + ("}" + rest));
    UrlText(EscapeAll(t.url), rest);
    PlainKey("url");
    KeyBack("url", "\"" + inside, Partial(t.tier, None));
    assert ("\"" + inside)[1..] == inside;
    UrlBack(t.url, "}" + rest);
    NoWs("}" + rest);
  }

  lemma {:induction false} TierText(number: string, url: string, rest: string)
    ensures "{\"tier\":" + number + ",\"url\":\"" + url + "\"}" + rest ==
            "{" + ("\"" + "tier" + "\":" + (number + ("," + ("\"url\":\"" + url + "\"}" + rest))))
  {
  }

  lemma {:induction false} TierValue(tier: int, tail: string)
    requires IsInt32(tier)
    ensures MemberValue("tier", ToDecInt(tier) + ("," + tail), Partial(0, None)) ==
            Some(Read(Partial(tier, None), "," + tail))
  {
    IntBack(tier, "," + tail);
    TierOf(ToDecInt(tier) + ("," + tail), tier, "," + tail);
  }

  lemma {:induction false} TierOf(s: string, tier: int, rest: string)
    requires IsInt32(tier) && ParseInt(s) == Read(tier, rest)
    ensures MemberValue("tier", s, Partial(0, None)) == Some(Read(Partial(tier, None), rest))
  {
  }

  lemma {:induction false} CommaSkipped(tail: string)
    requires tail == "" || !IsSpace(tail[0])
    ensures SkipComma(SkipWs("," + tail)) == tail
  {
    NoWs("," + tail);
    assert ("," + tail)[1..] == tail;
    NoWs(tail);
  }

  lemma {:induction false} TierMember(t: Tracker, tail: string)
    requires IsInt32(t.tier) && (tail == "" || !IsSpace(tail[0]))
    ensures ParseMembers("\"" + "tier" + "\":" + (ToDecInt(t.tier) + ("," + tail)), Partial(0, None)) ==
            ParseMembers(tail, Partial(t.tier, None))
  {
    PlainKey("tier");
    StartOfInt(t.tier);
    KeyBack("tier", ToDecInt(t.tier) + ("," + tail), Partial(0, None));
    TierValue(t.tier, tail);
    CommaSkipped(tail);
  }

  lemma {:induction false} StartOfInt(i: int)
    ensures !IsSpace(ToDecInt(i)[0])
  {
  }

  /** One printed entry is read back. */
  lemma {:induction false} EntryBack(t: Tracker, rest: string)
    requires IsInt32(t.tier) && (rest == "" || !IsSpace(rest[0]))
    ensures ParseEntry(TrackerText(t) + rest) == Some(Read(t, SkipComma(rest)))
  {
    var tail := "\"url\":\"" + EscapeAll(t.url) + "\"}" + rest;
    var inside := "\"" + "tier" + "\":" + (ToDecInt(t.tier) + ("," + tail));
    TierText(ToDecInt(t.tier), EscapeAll(t.url), rest);
    assert ("{" + inside)[1..] == inside;
    NoWs(inside);
    TierMember(t, tail);
    UrlMember(t, rest);
    assert ("}" + rest)[1..] == rest;
    NoWs(rest);
  }

  lemma {:induction false} NextEntry(s: string, t: Tracker, rest: string)
    requires Peek(s) == '{' && ParseEntry(s) == Some(Read(t, rest))
    ensures ParseEntries(s) ==
            if ParseEntries(rest).None? then None else Some([t] + ParseEntries(rest).value)
  {
  }

  /** A printed entry, in front of entries that are read back. */
  lemma {:induction false} EntryThen(t: Tracker, rest: string, others: seq<Tracker>)
    requires IsInt32(t.tier) && rest != "" && !IsSpace(rest[0]) && ParseEntries(SkipComma(rest)) == Some(others)
    ensures ParseEntries(TrackerText(t) + rest) == Some([t] + others) && Peek(TrackerText(t) + rest) == '{'
  {
    EntryBack(t, rest);
    NextEntry(TrackerText(t) + rest, t, SkipComma(rest));
  }

  lemma {:induction false} RestBack(trackers: seq<Tracker>)
    requires forall t :: t in trackers ==> IsInt32(t.tier)
    ensures ParseEntries(SkipComma(RestText(TrackerText, trackers))) == Some(trackers)
    ensures var text := RestText(TrackerText, trackers); text != "" && !IsSpace(text[0])
  {
    if trackers != [] {
      var first, rest := TrackerText(trackers[0]), RestText(TrackerText, trackers[1..]);
      RestBack(trackers[1..]);
      EntryThen(trackers[0], rest, trackers[1..]);
      Regroup(",", first, rest, "");
      CommaSkipped(first + rest);
      NoWs("," + (first + rest));
      assert [trackers[0]] + trackers[1..] == trackers;
    }
  }

  /** Parsing what was printed gives the same trackers: for every list, every
      `int` tier and every byte string. */
  lemma {:induction false} RoundTrip(trackers: seq<Tracker>)
    requires forall t :: t in trackers ==> IsInt32(t.tier)
    ensures ParseTrackers(TrackersText(trackers)) == Some(trackers)
  {
    var text := TrackersText(trackers);
    NoWs(text);
    if trackers == [] {
      assert text[1..] == "]";
    } else {
      var rest := RestText(TrackerText, trackers[1..]);
      RestBack(trackers[1..]);
      EntryThen(trackers[0], rest, trackers[1..]);
      assert text[1..] == TrackerText(trackers[0]) + rest;
      NoWs(text[1..]);
      assert [trackers[0]] + trackers[1..] == trackers;
    }
  }

  // ── The text survives as a C string ──────────────────────────────────────

  lemma {:induction false} EscapedHasNoNul(url: string)
    ensures NUL !in EscapeAll(url)
  {
    if url != "" { EscapedHasNoNul(url[1..]); }
  }

  lemma {:induction false} RestHasNoNul(trackers: seq<Tracker>)
    ensures NUL !in RestText(TrackerText, trackers)
  {
    if trackers != [] {
      TrackerHasNoNul(trackers[0]);
      RestHasNoNul(trackers[1..]);
    }
  }

  lemma {:induction false} TrackerHasNoNul(t: Tracker)
    ensures NUL !in TrackerText(t)
  {
    EscapedHasNoNul(t.url);
    DigitsOnly(ToDec(if t.tier < 0 then -t.tier else t.tier), NUL);
  }

  /** A NUL inside a URL does not cut the text short. */
  lemma {:induction false} TextHasNoNul(trackers: seq<Tracker>)
    ensures NUL !in TrackersText(trackers)
  {
    if trackers != [] {
      TrackerHasNoNul(trackers[0]);
      RestHasNoNul(trackers[1..]);
    }
  }

  // ── The printer's loops ──────────────────────────────────────────────────

  lemma {:induction false} EscapeAppend(url: string, c: char)
    ensures EscapeAll(url + [c]) == EscapeAll(url) + Escape(c)
  {
    if url == "" {
      assert (url + [c])[1..] == "";
    } else {
      EscapeAppend(url[1..], c);
      assert (url + [c])[1..] == url[1..] + [c];
    }
  }

  method EscapeUrl(head: string, url: string) returns (json: string)
    ensures json == head + EscapeAll(url)
  {
    json := head;
    for n := 0 to |url|
      invariant json == head + EscapeAll(url[..n])
    {
      EscapeAppend(url[..n], url[n]);
      assert url[..n + 1] == url[..n] + [url[n]];
      json := json + Escape(url[n]);
    }
    assert url[..|url|] == url;
  }

  /** The text of a list, up to where the closing bracket goes. */
  function OpenText(f: Tracker -> string, trackers: seq<Tracker>): string {
    if trackers == [] then "["
    else
      var front, last := trackers[..|trackers| - 1], trackers[|trackers| - 1];
      OpenText(f, front) + (if front == [] then "" else ",") + f(last)
  }

  lemma {:induction false} OpenThenRest(f: Tracker -> string, done: seq<Tracker>, todo: seq<Tracker>)
    requires done != []
    ensures ListText(f, done + todo) == OpenText(f, done) + RestText(f, todo)
  {
    var front, last := done[..|done| - 1], done[|done| - 1];
    assert done == front + [last];
    if front == [] {
      assert (done + todo)[0] == last && (done + todo)[1..] == todo;
      Regroup("[", "", f(last), RestText(f, todo));
    } else {
      OpenThenRest(f, front, [last] + todo);
      assert front + ([last] + todo) == done + todo;
      assert ([last] + todo)[1..] == todo;
      Regroup(OpenText(f, front), ",", f(last), RestText(f, todo));
      Regroup(",", f(last), RestText(f, todo), "");
    }
  }

  method OpenJson(trackers: seq<Tracker>) returns (json: string)
    ensures json == OpenText(TrackerText, trackers)
  {
    json := "[";
    for n := 0 to |trackers|
      invariant json == OpenText(TrackerText, trackers[..n])
    {
      assert trackers[..n + 1][..n] == trackers[..n] && trackers[..n + 1][n] == trackers[n];
      var entry := EscapeUrl("{\"tier\":" + ToDecInt(trackers[n].tier) + ",\"url\":\"", trackers[n].url);
      entry := entry + "\"}";
      json := json + (if n > 0 then "," else "") + entry;
    }
    assert trackers[..|trackers|] == trackers;
  }

  method TrackersToJson(trackers: seq<Tracker>) returns (json: string)
    ensures json == TrackersText(trackers)
  {
    json := OpenJson(trackers);
    if trackers != [] {
      OpenThenRest(TrackerText, trackers, []);
      assert trackers + [] == trackers;
    }
    json := json + "]";
  }

  // ── The parser's loops, over a pointer into the text ─────────────────────

  method SkipJsonWs(s: string, p: nat) returns (q: nat)
    requires p <= |s|
    ensures p <= q <= |s| && s[q..] == SkipWs(s[p..])
  {
    q := p;
    while q < |s| && IsSpace(s[q])
      invariant p <= q <= |s| && SkipWs(s[p..]) == SkipWs(s[q..])
    {
      assert s[q..][1..] == s[q + 1..];
      q := q + 1;
    }
  }

  /** One escape; `p` is at the character after the backslash. */
  method UnescapeAt(s: string, p: nat) returns (text: string, q: nat)
    requires p < |s|
    ensures p < q <= |s| && Unescape(s[p..]) == Read(text, s[q..])
  {
    var c := s[p];
    text, q := "", p + 1;
    assert s[p..][1..] == s[p + 1..];
    if c == 'n' { text := "\n"; }
    else if c == 't' { text := "\t"; }
    else if c == 'r' { text := "\r"; }
    else if c == 'b' { text := [8 as char]; }
    else if c == 'f' { text := [12 as char]; }
    else if c == 'u' {
      assert p + 4 < |s| ==> s[p..][1..5] == s[p + 1..p + 5] && s[p..][5..] == s[p + 5..];
      if p + 4 < |s| && NUL !in s[p + 1..p + 5] {
        text := Utf8(Strtoul16(s[p + 1..p + 5]));
        q := p + 5;
      }
    } else {
      text := [c];
    }
  }

  /** What is read after `done` has been read. */
  ghost function Onto(done: string, r: Read<string>): Read<string> { Read(done + r.value, r.rest) }

  lemma {:induction false} OntoMore(done: string, more: string, r: Read<string>)
    ensures Onto(done, Onto(more, r)) == Onto(done + more, r)
  {
    assert done + (more + r.value) == (done + more) + r.value;
  }

  /** One character or escape inside a string. */
  method StringStep(s: string, p: nat) returns (more: string, q: nat)
    requires p < |s| && s[p] != NUL && s[p] != '"'
    ensures p < q <= |s| && StringBody(s[p..]) == Onto(more, StringBody(s[q..]))
  {
    assert s[p..][1..] == s[p + 1..];
    if s[p] == '\\' && p + 1 < |s| && s[p + 1] != NUL {
      more, q := UnescapeAt(s, p + 1);
    } else {
      more, q := [s[p]], p + 1;
    }
  }

  method ParseJsonString(s: string, p: nat) returns (text: string, q: nat)
    requires p < |s|
    ensures p < q <= |s| && StringBody(s[p + 1..]) == Read(text, s[q..])
  {
    text, q := "", p + 1;
    assert "" + StringBody(s[q..]).value == StringBody(s[q..]).value;
    while q < |s| && s[q] != NUL && s[q] != '"'
      invariant p < q <= |s|
      invariant StringBody(s[p + 1..]) == Onto(text, StringBody(s[q..]))
    {
      var more, next := StringStep(s, q);
      OntoMore(text, more, StringBody(s[next..]));
      text, q := text + more, next;
    }
    assert text + "" == text;
    if q < |s| && s[q] == '"' {
      assert s[q..][1..] == s[q + 1..];
      q := q + 1;
    }
  }

  method ParseJsonInt(s: string, p: nat) returns (n: int, q: nat)
    requires p <= |s|
    ensures p <= q <= |s| && ParseInt(s[p..]) == Read(n, s[q..])
  {
    var negative := p < |s| && s[p] == '-';
    var start := if negative then p + 1 else p;
    assert negative ==> s[p..][1..] == s[p + 1..];
    q, n := start, 0;
    while q < |s| && IsDigit(s[q])
      invariant start <= q <= |s| && DigitRun(s[start..], 0) == DigitRun(s[q..], n)
    {
      assert s[q..][1..] == s[q + 1..];
      n := n * 10 + (s[q] as int - 48);
      q := q + 1;
    }
    n := if negative then -n else n;
  }

  method SkipJsonComma(s: string, p: nat) returns (q: nat)
    requires p <= |s|
    ensures p <= q <= |s| && s[q..] == SkipComma(SkipWs(s[p..]))
  {
    q := SkipJsonWs(s, p);
    if q < |s| && s[q] == ',' {
      assert s[q..][1..] == s[q + 1..];
      q := SkipJsonWs(s, q + 1);
    }
  }

  /** The value of the member called `key`. */
  method ParseJsonValue(s: string, p: nat, key: string, e: Partial) returns (ok: bool, e': Partial, q: nat)
    requires p <= |s|
    ensures p <= q <= |s|
    ensures MemberValue(key, s[p..], e) == if ok then Some(Read(e', s[q..])) else None
  {
    ok, e', q := true, e, p;
    assert p < |s| ==> s[p..][1..] == s[p + 1..];
    if key == "tier" {
      var n, next := ParseJsonInt(s, p);
      e', q := e.(tier := AsInt32(n)), next;
    } else if p < |s| && s[p] == '"' {
      var text, next := ParseJsonString(s, p);
      q := next;
      if key == "url" { e' := e.(url := Some(text)); }
    } else if key == "url" {
      ok := false;
    } else {
      var n, next := ParseJsonInt(s, p);
      q := next;
    }
  }

  method ParseJsonKey(s: string, p: nat) returns (ok: bool, key: string, q: nat)
    requires p <= |s|
    ensures p <= q <= |s| && (ok ==> p < q)
    ensures ParseKey(s[p..]) == if ok then Some(Read(key, s[q..])) else None
  {
    var start := SkipJsonWs(s, p);
    if start == |s| || s[start] != '"' { return false, "", p; }
    assert s[start..][1..] == s[start + 1..];
    var colon;
    key, colon := ParseJsonString(s, start);
    colon := SkipJsonWs(s, colon);
    if colon == |s| || s[colon] != ':' { return false, "", p; }
    assert s[colon..][1..] == s[colon + 1..];
    q := SkipJsonWs(s, colon + 1);
    ok := true;
    KeyRead(s[p..], s[start..], s[start + 1..], s[colon..], s[colon + 1..]);
  }

  lemma {:induction false} KeyRead(text: string, quoted: string, body: string, colon: string, after: string)
    requires SkipWs(text) == quoted && quoted != "" && quoted[0] == '"' && body == quoted[1..]
    requires SkipWs(StringBody(body).rest) == colon && colon != "" && colon[0] == ':' && after == colon[1..]
    ensures ParseKey(text) == Some(Read(StringBody(body).value, SkipWs(after)))
  {
  }

  method ParseJsonMember(s: string, p: nat, e: Partial) returns (ok: bool, e': Partial, q: nat)
    requires p <= |s|
    ensures p <= q <= |s| && (ok ==> p < q)
    ensures ParseMember(s[p..], e) == if ok then Some(Read(e', s[q..])) else None
  {
    var named, key, value := ParseJsonKey(s, p);
    if !named { return false, e, p; }
    var read, entry, next := ParseJsonValue(s, value, key, e);
    if !read { return false, e, p; }
    q := SkipJsonComma(s, next);
    return true, entry, q;
  }

  method ParseJsonMembers(s: string, p: nat) returns (ok: bool, e: Partial, q: nat)
    requires p <= |s|
    ensures p <= q <= |s|
    ensures ParseMembers(s[p..], Partial(0, None)) == if ok then Some(Read(e, s[q..])) else None
  {
    ok, e, q := true, Partial(0, None), p;
    while q < |s| && s[q] != NUL && s[q] != '}'
      invariant p <= q <= |s|
      invariant ParseMembers(s[p..], Partial(0, None)) == ParseMembers(s[q..], e)
      decreases |s| - q
    {
      var read, e', next := ParseJsonMember(s, q, e);
      if !read { return false, e, q; }
      e, q := e', next;
    }
  }

  method ParseJsonObject(s: string, p: nat) returns (ok: bool, e: Partial, q: nat)
    requires p < |s|
    ensures p <= q <= |s| && (ok ==> p < q)
    ensures ParseObject(s[p..]) == if ok then Some(Read(e, s[q..])) else None
  {
    if s[p] != '{' { return false, Partial(0, None), p; }
    assert s[p..][1..] == s[p + 1..];
    var inside := SkipJsonWs(s, p + 1);
    ok, e, q := ParseJsonMembers(s, inside);
  }

  method ParseJsonEntry(s: string, p: nat) returns (ok: bool, t: Tracker, q: nat)
    requires p < |s|
    ensures p <= q <= |s| && (ok ==> p < q)
    ensures ParseEntry(s[p..]) == if ok then Some(Read(t, s[q..])) else None
  {
    var read, e, close := ParseJsonObject(s, p);
    ok, t, q := CloseJsonObject(s, s[p..], read, e, close);
    if !ok { q := p; }
  }

  /** What follows the members of an object: the brace and perhaps a comma. */
  method CloseJsonObject(s: string, ghost text: string, read: bool, e: Partial, close: nat) returns (ok: bool, t: Tracker, q: nat)
    requires close <= |s| && ParseObject(text) == if read then Some(Read(e, s[close..])) else None
    ensures close <= q <= |s|
    ensures ParseEntry(text) == if ok then Some(Read(t, s[q..])) else None
  {
    if !read || e.url.None? || close == |s| || s[close] != '}' { return false, Tracker(0, ""), close; }
    assert s[close..][1..] == s[close + 1..];
    q := SkipJsonComma(s, close + 1);
    EntryRead(text, e, s[close..], s[close + 1..]);
    return true, Tracker(e.tier, e.url.value), q;
  }

  lemma {:induction false} EntryRead(text: string, e: Partial, rest: string, after: string)
    requires ParseObject(text) == Some(Read(e, rest)) && e.url.Some? && rest != "" && rest[0] == '}' && after == rest[1..]
    ensures ParseEntry(text) == Some(Read(Tracker(e.tier, e.url.value), SkipComma(SkipWs(after))))
  {
  }

  /** What is parsed once `done` has been. */
  ghost function OntoList(done: seq<Tracker>, r: Option<seq<Tracker>>): Option<seq<Tracker>> {
    if r.None? then None else Some(done + r.value)
  }

  lemma {:induction false} OntoOneMore(done: seq<Tracker>, t: Tracker, r: Option<seq<Tracker>>)
    ensures OntoList(done, OntoList([t], r)) == OntoList(done + [t], r)
  {
    if r.Some? { assert done + ([t] + r.value) == (done + [t]) + r.value; }
  }

  method ParseTrackersJson(s: string) returns (r: Option<seq<Tracker>>)
    ensures r == ParseTrackers(s)
  {
    assert s[0..] == s;
    var q := SkipJsonWs(s, 0);
    if q == |s| || s[q] != '[' { return None; }
    assert s[q..][1..] == s[q + 1..];
    q := SkipJsonWs(s, q + 1);
    var out: seq<Tracker> := [];
    ghost var start := q;
    assert OntoList([], ParseEntries(s[q..])) == ParseEntries(s[q..]) by {
      if ParseEntries(s[q..]).Some? { assert [] + ParseEntries(s[q..]).value == ParseEntries(s[q..]).value; }
    }
    while q < |s| && s[q] != NUL && s[q] != ']'
      invariant q <= |s|
      invariant ParseEntries(s[start..]) == OntoList(out, ParseEntries(s[q..]))
      decreases |s| - q
    {
      var ok, t, next := ParseJsonEntry(s, q);
      if !ok { return None; }
      OntoOneMore(out, t, ParseEntries(s[next..]));
      out, q := out + [t], next;
    }
    if q == |s| || s[q] != ']' { return None; }
    assert out + [] == out;
    return Some(out);
  }
}
