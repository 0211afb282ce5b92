/** Reading the bencoding of a `.torrent` without a torrent library. */
module Bencoding {
  import opened Text

  datatype Bencode =
    | Str(bytes: string)
    | Int(n: nat)
    | List(items: seq<Bencode>)
    | Dict(entries: seq<Entry>)

  datatype Entry = Entry(key: string, value: Bencode)

  // ── The parser ───────────────────────────────────────────────────────────

  function ParseStr(s: string): (r: Option<Read<string>>)
    ensures r.Some? ==> |r.value.rest| < |s|
  {
    var colon := IndexOf(s, ':');
    if colon == |s| then None
    else
      var len := ParseUnsigned(s[..colon], U64);
      if len.None? || colon + 1 + len.value > |s| then None
      else Some(Read(s[colon + 1..colon + 1 + len.value], s[colon + 1 + len.value..]))
  }

  function ParseInt(s: string): (r: Option<Read<nat>>)
    requires s != ""
    ensures r.Some? ==> |r.value.rest| < |s|
  {
    var end := IndexOf(s[1..], 'e');
    if end == |s| - 1 then None
    else
      var n := ParseUnsigned(s[1..1 + end], U64);
      if n.None? then None else Some(Read(n.value, s[1 + end + 1..]))
  }

  function ParseValue(s: string): (r: Option<Read<Bencode>>)
    ensures r.Some? ==> |r.value.rest| < |s|
    decreases |s|, 0
  {
    if s == "" then None
    else if s[0] == 'd' then
      var r := ParseEntries(s[1..]);
      if r.None? then None else Some(Read(Dict(r.value.value), r.value.rest))
    else if s[0] == 'l' then
      var r := ParseItems(s[1..]);
      if r.None? then None else Some(Read(List(r.value.value), r.value.rest))
    else if s[0] == 'i' then
      var r := ParseInt(s);
      if r.None? then None else Some(Read(Int(r.value.value), r.value.rest))
    else if IsDigit(s[0]) then
      var r := ParseStr(s);
      if r.None? then None else Some(Read(Str(r.value.value), r.value.rest))
    else None
  }

  /** Items up to and including the closing 'e'. */
  function ParseItems(s: string): (r: Option<Read<seq<Bencode>>>)
    ensures r.Some? ==> |r.value.rest| < |s|
    decreases |s|, 1
  {
    if s == "" then None
    else if s[0] == 'e' then Some(Read([], s[1..]))
    else
      var v := ParseValue(s);
      if v.None? then None else After([v.value.value], ParseItems(v.value.rest))
  }

  /** Entries up to and including the closing 'e'. */
  function ParseEntries(s: string): (r: Option<Read<seq<Entry>>>)
    ensures r.Some? ==> |r.value.rest| < |s|
    decreases |s|, 1
  {
    if s == "" then None
    else if s[0] == 'e' then Some(Read([], s[1..]))
    else
      var k := ParseStr(s);
      if k.None? then None
      else
        var v := ParseValue(k.value.rest);
        if v.None? then None else After([Entry(k.value.value, v.value.value)], ParseEntries(v.value.rest))
  }

  /** What was read first, in front of what was read next. */
  function After<T>(first: seq<T>, next: Option<Read<seq<T>>>): (r: Option<Read<seq<T>>>) {
    if next.None? then None else Some(Read(first + next.value.value, next.value.rest))
  }

  lemma {:induction false} AfterNothing<T>(next: Option<Read<seq<T>>>)
    ensures After([], next) == next
  {
    if next.Some? { assert [] + next.value.value == next.value.value; }
  }

  lemma {:induction false} AfterAfter<T>(a: seq<T>, b: seq<T>, next: Option<Read<seq<T>>>)
    ensures After(a, After(b, next)) == After(a + b, next)
  {
    if next.Some? { assert a + (b + next.value.value) == (a + b) + next.value.value; }
  }

  // ── The parser's loops ───────────────────────────────────────────────────

  /** A result in the source's terms: the value and the number of bytes it took. */
  ghost predicate Agrees<T>(data: string, r: Option<(T, nat)>, spec: Option<Read<T>>) {
    && (r.None? <==> spec.None?)
    && (r.Some? ==> 0 < r.value.1 <= |data| && spec == Some(Read(r.value.0, data[r.value.1..])))
  }

  method ReadStr(data: string) returns (r: Option<(string, nat)>)
    ensures Agrees(data, r, ParseStr(data))
  {
    var colon := IndexOf(data, ':');
    if colon == |data| { return None; }
    var len := ParseUnsigned(data[..colon], U64);
    if len.None? { return None; }
    var end := colon + 1 + len.value;
    if end > |data| { return None; }
    return Some((data[colon + 1..end], end));
  }

  method ReadInt(data: string) returns (r: Option<(nat, nat)>)
    requires data != ""
    ensures Agrees(data, r, ParseInt(data))
  {
    var end := IndexOf(data[1..], 'e');
    if end == |data| - 1 { return None; }
    var n := ParseUnsigned(data[1..1 + end], U64);
    if n.None? { return None; }
    return Some((n.value, 1 + end + 1));
  }

  method ReadValue(data: string) returns (r: Option<(Bencode, nat)>)
    ensures Agrees(data, r, ParseValue(data))
    decreases |data|, 1
  {
    if data == "" { return None; }
    if data[0] == 'd' {
      r := ReadDict(data);
    } else if data[0] == 'l' {
      r := ReadList(data);
    } else if data[0] == 'i' {
      var n := ReadInt(data);
      return if n.None? then None else Some((Int(n.value.0), n.value.1));
    } else if IsDigit(data[0]) {
      var b := ReadStr(data);
      return if b.None? then None else Some((Str(b.value.0), b.value.1));
    } else {
      return None;
    }
  }

  lemma {:induction false} ItemStep(s: string, value: Bencode, rest: string)
    requires s != "" && s[0] != 'e' && ParseValue(s) == Some(Read(value, rest))
    ensures ParseItems(s) == After([value], ParseItems(rest))
  {
  }

  /** One item; the answer says how many bytes it took. */
  method ReadItem(data: string) returns (r: Option<(Bencode, nat)>)
    requires data != "" && data[0] != 'e'
    ensures r.None? ==> ParseItems(data).None?
    ensures r.Some? ==> 0 < r.value.1 <= |data| && ParseItems(data) == After([r.value.0], ParseItems(data[r.value.1..]))
    decreases |data|, 2
  {
    r := ReadValue(data);
    if r.Some? { ItemStep(data, r.value.0, data[r.value.1..]); }
  }

  lemma {:induction false} ListEnds(data: string, items: seq<Bencode>, pos: nat)
    requires 1 <= pos < |data| && data[0] == 'l' && data[pos] == 'e'
    requires ParseItems(data[1..]) == After(items, ParseItems(data[pos..]))
    ensures ParseValue(data) == Some(Read(List(items), data[pos + 1..]))
  {
    assert data[pos..][0] == 'e' && data[pos..][1..] == data[pos + 1..];
    assert ParseItems(data[pos..]) == Some(Read([], data[pos + 1..]));
    assert items + [] == items;
  }

  method ReadList(data: string) returns (r: Option<(Bencode, nat)>)
    requires data != "" && data[0] == 'l'
    ensures Agrees(data, r, ParseValue(data))
    decreases |data|, 0
  {
    var pos := 1;
    var items: seq<Bencode> := [];
    AfterNothing(ParseItems(data[1..]));
    while pos < |data|
      invariant 1 <= pos <= |data|
      invariant ParseItems(data[1..]) == After(items, ParseItems(data[pos..]))
    {
      if data[pos] == 'e' {
        ListEnds(data, items, pos);
        return Some((List(items), pos + 1));
      }
      var v := ReadItem(data[pos..]);
      if v.None? { return None; }
      assert data[pos..][v.value.1..] == data[pos + v.value.1..];
      pos := pos + v.value.1;
      AfterAfter(items, [v.value.0], ParseItems(data[pos..]));
      items := items + [v.value.0];
    }
    return None;
  }

  lemma {:induction false} EntryStep(s: string, key: string, value: Bencode, middle: string, rest: string)
    requires s != "" && s[0] != 'e'
    requires ParseStr(s) == Some(Read(key, middle)) && ParseValue(middle) == Some(Read(value, rest))
    ensures ParseEntries(s) == After([Entry(key, value)], ParseEntries(rest))
  {
  }

  lemma {:induction false} EntryStops(s: string)
    requires s != "" && s[0] != 'e' && (ParseStr(s).None? || ParseValue(ParseStr(s).value.rest).None?)
    ensures ParseEntries(s).None?
  {
  }

  /** One key and its value; the answer says how many bytes they took. */
  method ReadEntry(data: string) returns (r: Option<(Entry, nat)>)
    requires data != "" && data[0] != 'e'
    ensures r.None? ==> ParseEntries(data).None?
    ensures r.Some? ==> 0 < r.value.1 <= |data| && ParseEntries(data) == After([r.value.0], ParseEntries(data[r.value.1..]))
    decreases |data|, 2
  {
    var k := ReadStr(data);
    if k.None? {
      EntryStops(data);
      return None;
    }
    var middle := data[k.value.1..];
    var v := ReadValue(middle);
    if v.None? {
      EntryStops(data);
      return None;
    }
    var n := k.value.1 + v.value.1;
    assert middle[v.value.1..] == data[n..];
    EntryStep(data, k.value.0, v.value.0, middle, data[n..]);
    return Some((Entry(k.value.0, v.value.0), n));
  }

  lemma {:induction false} DictEnds(data: string, entries: seq<Entry>, pos: nat)
    requires 1 <= pos < |data| && data[0] == 'd' && data[pos] == 'e'
    requires ParseEntries(data[1..]) == After(entries, ParseEntries(data[pos..]))
    ensures ParseValue(data) == Some(Read(Dict(entries), data[pos + 1..]))
  {
    assert data[pos..][0] == 'e' && data[pos..][1..] == data[pos + 1..];
    assert ParseEntries(data[pos..]) == Some(Read([], data[pos + 1..]));
    assert entries + [] == entries;
  }

  method ReadDict(data: string) returns (r: Option<(Bencode, nat)>)
    requires data != "" && data[0] == 'd'
    ensures Agrees(data, r, ParseValue(data))
    decreases |data|, 0
  {
    var pos := 1;
    var entries: seq<Entry> := [];
    AfterNothing(ParseEntries(data[1..]));
    while pos < |data|
      invariant 1 <= pos <= |data|
      invariant ParseEntries(data[1..]) == After(entries, ParseEntries(data[pos..]))
    {
      if data[pos] == 'e' {
        DictEnds(data, entries, pos);
        return Some((Dict(entries), pos + 1));
      }
      var e := ReadEntry(data[pos..]);
      if e.None? { return None; }
      assert data[pos..][e.value.1..] == data[pos + e.value.1..];
      pos := pos + e.value.1;
      AfterAfter(entries, [e.value.0], ParseEntries(data[pos..]));
      entries := entries + [e.value.0];
    }
    return None;
  }

  // ── The language it accepts ──────────────────────────────────────────────

  /** A bencoding with the numbers as they were spelled. */
  datatype Syntax =
    | StrSyntax(len: string, bytes: string)
    | IntSyntax(digits: string)
    | ListSyntax(items: seq<Syntax>)
    | DictSyntax(entries: seq<EntrySyntax>)

  datatype EntrySyntax = EntrySyntax(len: string, key: string, value: Syntax)

  function Print(t: Syntax): string {
    match t
    case StrSyntax(len, bytes) => len + ":" + bytes
    case IntSyntax(digits) => "i" + digits + "e"
    case ListSyntax(items) => "l" + PrintItems(items)
    case DictSyntax(entries) => "d" + PrintEntries(entries)
  }

  function PrintItems(items: seq<Syntax>): string {
    if items == [] then "e" else Print(items[0]) + PrintItems(items[1..])
  }

  function PrintEntries(entries: seq<EntrySyntax>): string {
    if entries == [] then "e" else PrintEntry(entries[0]) + PrintEntries(entries[1..])
  }

  function PrintEntry(e: EntrySyntax): string { e.len + ":" + e.key + Print(e.value) }

  /** Numbers are spelled as Rust's `parse` takes them: leading zeros and one '+'
      are fine, but a string in value position must start with a digit. */
  ghost predicate Proper(t: Syntax) {
    match t
    case StrSyntax(len, bytes) => ParseUnsigned(len, U64) == Some(|bytes|) && IsDigit(len[0])
    case IntSyntax(digits) => ParseUnsigned(digits, U64).Some?
    case ListSyntax(items) => ProperItems(items)
    case DictSyntax(entries) => ProperEntries(entries)
  }

  ghost predicate ProperItems(items: seq<Syntax>) {
    items == [] || (Proper(items[0]) && ProperItems(items[1..]))
  }

  ghost predicate ProperEntries(entries: seq<EntrySyntax>) {
    || entries == []
    || (&& ParseUnsigned(entries[0].len, U64) == Some(|entries[0].key|) && Proper(entries[0].value)
        && ProperEntries(entries[1..]))
  }

  ghost function Value(t: Syntax): Bencode
    requires Proper(t)
  {
    match t
    case StrSyntax(_, bytes) => Str(bytes)
    case IntSyntax(digits) => Int(ParseUnsigned(digits, U64).value)
    case ListSyntax(items) => List(Values(items))
    case DictSyntax(entries) => Dict(EntryValues(entries))
  }

  ghost function Values(items: seq<Syntax>): seq<Bencode>
    requires ProperItems(items)
  {
    if items == [] then [] else [Value(items[0])] + Values(items[1..])
  }

  ghost function EntryValues(entries: seq<EntrySyntax>): seq<Entry>
    requires ProperEntries(entries)
  {
    if entries == [] then [] else [Entry(entries[0].key, Value(entries[0].value))] + EntryValues(entries[1..])
  }

  // ── Everything proper is read back ───────────────────────────────────────

  lemma {:induction false} NumberHasNo(s: string, c: char)
    requires ParseUnsigned(s, U64).Some? && !IsDigit(c) && c != '+'
    ensures c !in s && s != "" && s[0] != c
  {
    if s[0] == '+' {
      DigitsOnly(s[1..], c);
      assert s == [s[0]] + s[1..];
    } else {
      DigitsOnly(s, c);
    }
  }

  lemma {:induction false} ReadsStr(len: string, bytes: string, rest: string)
    requires ParseUnsigned(len, U64) == Some(|bytes|)
    ensures ParseStr(len + ":" + bytes + rest) == Some(Read(bytes, rest))
    ensures (len + ":" + bytes + rest)[0] == len[0] != 'e'
  {
    var s := len + ":" + bytes + rest;
    NumberHasNo(len, ':');
    NumberHasNo(len, 'e');
    assert s[..|len|] == len;
    IndexOfIs(s, ':', |len|);
    assert s[|len| + 1..|len| + 1 + |bytes|] == bytes && s[|len| + 1 + |bytes|..] == rest;
  }

  lemma {:induction false} ReadsInt(digits: string, rest: string)
    requires ParseUnsigned(digits, U64).Some?
    ensures ParseInt("i" + digits + "e" + rest) == Some(Read(ParseUnsigned(digits, U64).value, rest))
  {
    var s := "i" + digits + "e" + rest;
    NumberHasNo(digits, 'e');
    assert s[1..] == digits + "e" + rest && s[1..][..|digits|] == digits;
    IndexOfIs(s[1..], 'e', |digits|);
    assert s[1..1 + |digits|] == digits && s[1 + |digits| + 1..] == rest;
  }

  lemma {:induction false} StrIsValue(len: string, bytes: string, rest: string)
    requires ParseUnsigned(len, U64) == Some(|bytes|) && IsDigit(len[0])
    ensures ParseValue(len + ":" + bytes + rest) == Some(Read(Str(bytes), rest))
  {
    ReadsStr(len, bytes, rest);
  }

  lemma {:induction false} IntIsValue(digits: string, rest: string)
    requires ParseUnsigned(digits, U64).Some?
    ensures ParseValue("i" + digits + "e" + rest) == Some(Read(Int(ParseUnsigned(digits, U64).value), rest))
  {
    ReadsInt(digits, rest);
  }

  lemma {:induction false} AfterFirst(c: char, body: string, rest: string)
    ensures ([c] + body + rest)[1..] == body + rest && ([c] + body + rest)[0] == c
  {
  }

  lemma {:induction false} ListIsValue(body: string, items: seq<Bencode>, rest: string)
    requires ParseItems(body + rest) == Some(Read(items, rest))
    ensures ParseValue("l" + body + rest) == Some(Read(List(items), rest))
  {
    AfterFirst('l', body, rest);
  }

  lemma {:induction false} DictIsValue(body: string, entries: seq<Entry>, rest: string)
    requires ParseEntries(body + rest) == Some(Read(entries, rest))
    ensures ParseValue("d" + body + rest) == Some(Read(Dict(entries), rest))
  {
    AfterFirst('d', body, rest);
  }

  lemma {:induction false} OneEntry(len: string, key: string, body: string, value: Bencode, tail: string)
    requires ParseUnsigned(len, U64) == Some(|key|) && ParseValue(body + tail) == Some(Read(value, tail))
    ensures ParseEntries(len + ":" + key + (body + tail)) == After([Entry(key, value)], ParseEntries(tail))
  {
    ReadsStr(len, key, body + tail);
  }

  lemma {:induction false} ReadsBack(t: Syntax, rest: string)
    requires Proper(t)
    ensures ParseValue(Print(t) + rest) == Some(Read(Value(t), rest))
    ensures Print(t) != "" && Print(t)[0] != 'e'
  {
    match t
    case StrSyntax(len, bytes) => StrIsValue(len, bytes, rest);
    case IntSyntax(digits) => IntIsValue(digits, rest);
    case ListSyntax(items) =>
      ReadsItems(items, rest);
      ListIsValue(PrintItems(items), Values(items), rest);
    case DictSyntax(entries) =>
      ReadsEntries(entries, rest);
      DictIsValue(PrintEntries(entries), EntryValues(entries), rest);
  }

  lemma {:induction false} ReadsItems(items: seq<Syntax>, rest: string)
    requires ProperItems(items)
    ensures ParseItems(PrintItems(items) + rest) == Some(Read(Values(items), rest))
  {
    if items == [] {
      assert ("e" + rest)[1..] == rest;
    } else {
      var tail := PrintItems(items[1..]) + rest;
      assert PrintItems(items) + rest == Print(items[0]) + tail;
      ReadsBack(items[0], tail);
      ReadsItems(items[1..], rest);
    }
  }

  lemma {:induction false} ReadsEntries(entries: seq<EntrySyntax>, rest: string)
    requires ProperEntries(entries)
    ensures ParseEntries(PrintEntries(entries) + rest) == Some(Read(EntryValues(entries), rest))
  {
    if entries == [] {
      assert ("e" + rest)[1..] == rest;
    } else {
      var e, tail := entries[0], PrintEntries(entries[1..]) + rest;
      assert PrintEntries(entries) + rest == e.len + ":" + e.key + (Print(e.value) + tail);
      ReadsBack(e.value, tail);
      OneEntry(e.len, e.key, Print(e.value), Value(e.value), tail);
      ReadsEntries(entries[1..], rest);
    }
  }

  // ── Nothing else is read ─────────────────────────────────────────────────

  lemma {:induction false} StrRead(s: string) returns (len: string)
    requires ParseStr(s).Some?
    ensures var r := ParseStr(s).value; s == len + ":" + r.value + r.rest && ParseUnsigned(len, U64) == Some(|r.value|)
    ensures len != "" && len[0] == s[0]
  {
    var colon := IndexOf(s, ':');
    len := s[..colon];
    assert len != "";
  }

  lemma {:induction false} IntRead(s: string) returns (digits: string)
    requires s != "" && s[0] == 'i' && ParseInt(s).Some?
    ensures var r := ParseInt(s).value; s == "i" + digits + "e" + r.rest && ParseUnsigned(digits, U64) == Some(r.value)
  {
    var end := IndexOf(s[1..], 'e');
    digits := s[1..1 + end];
    assert s[1..][end] == s[1 + end];
  }

  lemma {:induction false} ValueRead(s: string) returns (t: Syntax)
    requires ParseValue(s).Some?
    ensures var r := ParseValue(s).value; Proper(t) && Value(t) == r.value && s == Print(t) + r.rest
    decreases |s|, 1
  {
    if s[0] == 'd' { t := DictRead(s); }
    else if s[0] == 'l' { t := ListRead(s); }
    else if s[0] == 'i' { var digits := IntRead(s); t := IntSyntax(digits); }
    else { var len := StrRead(s); t := StrSyntax(len, ParseStr(s).value.value); }
  }

  lemma {:induction false} ListRead(s: string) returns (t: Syntax)
    requires s != "" && s[0] == 'l' && ParseValue(s).Some?
    ensures var r := ParseValue(s).value; Proper(t) && Value(t) == r.value && s == Print(t) + r.rest
    decreases |s|, 0
  {
    var r := ParseItems(s[1..]).value;
    var items := ItemsRead(s[1..]);
    t := ListSyntax(items);
    FirstThen(s, PrintItems(items), r.rest);
  }

  lemma {:induction false} DictRead(s: string) returns (t: Syntax)
    requires s != "" && s[0] == 'd' && ParseValue(s).Some?
    ensures var r := ParseValue(s).value; Proper(t) && Value(t) == r.value && s == Print(t) + r.rest
    decreases |s|, 0
  {
    var r := ParseEntries(s[1..]).value;
    var entries := EntriesRead(s[1..]);
    t := DictSyntax(entries);
    FirstThen(s, PrintEntries(entries), r.rest);
  }

  lemma {:induction false} FirstThen(s: string, body: string, rest: string)
    requires s != "" && s[1..] == body + rest
    ensures s == [s[0]] + body + rest
  {
  }

  lemma {:induction false} ItemsRead(s: string) returns (items: seq<Syntax>)
    requires ParseItems(s).Some?
    ensures var r := ParseItems(s).value; ProperItems(items) && Values(items) == r.value && s == PrintItems(items) + r.rest
    decreases |s|, 2
  {
    if s[0] == 'e' {
      items := [];
    } else {
      var first := ValueRead(s);
      var others := ItemsRead(ParseValue(s).value.rest);
      items := [first] + others;
      assert items[1..] == others;
    }
  }

  lemma {:induction false} EntriesRead(s: string) returns (entries: seq<EntrySyntax>)
    requires ParseEntries(s).Some?
    ensures var r := ParseEntries(s).value;
            ProperEntries(entries) && EntryValues(entries) == r.value && s == PrintEntries(entries) + r.rest
    decreases |s|, 2
  {
    if s[0] == 'e' {
      entries := [];
    } else {
      var k := ParseStr(s).value;
      var len := StrRead(s);
      var value := ValueRead(k.rest);
      var others := EntriesRead(ParseValue(k.rest).value.rest);
      entries := [EntrySyntax(len, k.value, value)] + others;
      assert entries[1..] == others;
    }
  }

  /** `w` is a bencoding of `v`. */
  ghost predicate Derives(v: Bencode, w: string) {
    exists t :: Proper(t) && Value(t) == v && Print(t) == w
  }

  /** The parser reads `v` and leaves `rest` exactly when a bencoding of `v`
      stands in front of `rest`. */
  lemma {:induction false} ParsesExactly(s: string, v: Bencode, rest: string)
    ensures ParseValue(s) == Some(Read(v, rest)) <==> exists w :: s == w + rest && Derives(v, w)
  {
    if ParseValue(s) == Some(Read(v, rest)) {
      var t := ValueRead(s);
      assert Derives(v, Print(t));
    }
    if w :| s == w + rest && Derives(v, w) {
      var t :| Proper(t) && Value(t) == v && Print(t) == w;
      ReadsBack(t, rest);
    }
  }

  /** What follows a value never changes how it is read. */
  lemma {:induction false} SuffixStable(w: string, v: Bencode, tail: string)
    ensures ParseValue(w) == Some(Read(v, "")) <==> ParseValue(w + tail) == Some(Read(v, tail))
  {
    if ParseValue(w) == Some(Read(v, "")) {
      var t := ValueRead(w);
      assert w == Print(t);
      ReadsBack(t, tail);
    }
    if ParseValue(w + tail) == Some(Read(v, tail)) {
      var t := ValueRead(w + tail);
      assert w == (w + tail)[..|w|] == Print(t);
      ReadsBack(t, "");
      assert Print(t) + "" == Print(t);
    }
  }

  // ── The canonical encoding ───────────────────────────────────────────────

  function EncodeStr(b: string): string { ToDec(|b|) + ":" + b }

  function Encode(v: Bencode): string {
    match v
    case Str(b) => EncodeStr(b)
    case Int(n) => "i" + ToDec(n) + "e"
    case List(items) => "l" + EncodeItems(items)
    case Dict(entries) => "d" + EncodeEntries(entries)
  }

  function EncodeItems(items: seq<Bencode>): string {
    if items == [] then "e" else Encode(items[0]) + EncodeItems(items[1..])
  }

  function EncodeEntries(entries: seq<Entry>): string {
    if entries == [] then "e"
    else EncodeStr(entries[0].key) + Encode(entries[0].value) + EncodeEntries(entries[1..])
  }

  /** Every number in `v`, and every length, is a `u64`. */
  ghost predicate Fits(v: Bencode) {
    match v
    case Str(b) => |b| < U64
    case Int(n) => n < U64
    case List(items) => FitItems(items)
    case Dict(entries) => FitEntries(entries)
  }

  ghost predicate FitItems(items: seq<Bencode>) { items == [] || (Fits(items[0]) && FitItems(items[1..])) }

  ghost predicate FitEntries(entries: seq<Entry>) {
    entries == [] || (|entries[0].key| < U64 && Fits(entries[0].value) && FitEntries(entries[1..]))
  }

  /** Encoding then parsing gives the value back, whatever follows it. */
  lemma {:induction false} RoundTrip(v: Bencode, rest: string)
    requires Fits(v)
    ensures ParseValue(Encode(v) + rest) == Some(Read(v, rest))
    ensures Encode(v) != "" && Encode(v)[0] != 'e'
  {
    match v
    case Str(b) =>
      ParseDec(|b|, U64);
      StrIsValue(ToDec(|b|), b, rest);
    case Int(n) =>
      ParseDec(n, U64);
      IntIsValue(ToDec(n), rest);
    case List(items) =>
      ItemsRoundTrip(items, rest);
      ListIsValue(EncodeItems(items), items, rest);
    case Dict(entries) =>
      EntriesRoundTrip(entries, rest);
      DictIsValue(EncodeEntries(entries), entries, rest);
  }

  lemma {:induction false} ItemsRoundTrip(items: seq<Bencode>, rest: string)
    requires FitItems(items)
    ensures ParseItems(EncodeItems(items) + rest) == Some(Read(items, rest))
  {
    if items == [] {
      assert ("e" + rest)[1..] == rest;
    } else {
      var tail := EncodeItems(items[1..]) + rest;
      assert EncodeItems(items) + rest == Encode(items[0]) + tail;
      RoundTrip(items[0], tail);
      ItemsRoundTrip(items[1..], rest);
      assert items == [items[0]] + items[1..];
    }
  }

  lemma {:induction false} EntriesRoundTrip(entries: seq<Entry>, rest: string)
    requires FitEntries(entries)
    ensures ParseEntries(EncodeEntries(entries) + rest) == Some(Read(entries, rest))
  {
    if entries == [] {
      assert ("e" + rest)[1..] == rest;
    } else {
      var key, value, tail := entries[0].key, entries[0].value, EncodeEntries(entries[1..]) + rest;
      Regroup(EncodeStr(key), Encode(value), EncodeEntries(entries[1..]), rest);
      ParseDec(|key|, U64);
      RoundTrip(value, tail);
      OneEntry(ToDec(|key|), key, Encode(value), value, tail);
      EntriesRoundTrip(entries[1..], rest);
      assert entries == [Entry(key, value)] + entries[1..];
    }
  }
}
