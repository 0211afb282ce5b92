/** Tracker lists as others may write them: with white space anywhere, members in any
    order, repeated or unknown ones among them. */
module TrackerSpelling {
  import opened Text
  import opened TrackerJson

  /** A piece of a string: a character as it is, one behind a backslash, or a code of
      four hexadecimal digits. */
  datatype Piece = Plain(c: char) | Short(c: char) | Code(digits: string)

  datatype Value = Number(n: int) | Quoted(body: seq<Piece>)

  /** A member with the white space around its parts. */
  datatype Member = Member(before: string, name: seq<Piece>, afterKey: string, beforeValue: string, value: Value, after: string)
  {
    function Key(): string { BodyValue(name) }
  }

  /** An object with the white space around it. */
  datatype Object = Object(before: string, members: seq<Member>, after: string)

  predicate Blank(s: string) { forall i :: 0 <= i < |s| ==> IsSpace(s[i]) }

  predicate ProperPiece(p: Piece) {
    match p
    case Plain(c) => c != NUL && c != '"' && c != '\\'
    case Short(c) => c != NUL && c != 'u'
    case Code(digits) => |digits| == 4 && forall i :: 0 <= i < 4 ==> IsHex(digits[i])
  }

  predicate ProperBody(body: seq<Piece>) { forall i :: 0 <= i < |body| ==> ProperPiece(body[i]) }

  /** A tier is a 64-bit number and a URL a string; other members are either. */
  predicate Proper(m: Member) {
    && Blank(m.before) && Blank(m.afterKey) && Blank(m.beforeValue) && Blank(m.after) && ProperBody(m.name)
    && (m.value.Number? ==> -0x8000_0000_0000_0000 <= m.value.n < 0x8000_0000_0000_0000)
    && (m.value.Quoted? ==> ProperBody(m.value.body))
    && (m.Key() == "tier" ==> m.value.Number?) && (m.Key() == "url" ==> m.value.Quoted?)
  }

  predicate AllProper(members: seq<Member>) { forall i :: 0 <= i < |members| ==> Proper(members[i]) }

  predicate ProperObjects(objects: seq<Object>) {
    forall i :: 0 <= i < |objects| ==> Blank(objects[i].before) && Blank(objects[i].after) && AllProper(objects[i].members)
  }

  // ── The text ─────────────────────────────────────────────────────────────

  function PieceText(p: Piece): string {
    match p
    case Plain(c) => [c]
    case Short(c) => ['\\', c]
    case Code(digits) => ['\\', 'u'] + digits
  }

  function BodyText(body: seq<Piece>): string {
    if body == [] then "" else PieceText(body[0]) + BodyText(body[1..])
  }

  function ValueText(v: Value, rest: string): string {
    if v.Number? then ToDecInt(v.n) + rest else "\"" + (BodyText(v.body) + ("\"" + rest))
  }

  /** A member from its quote on. */
  function MemberText(m: Member, rest: string): string {
    "\"" + (BodyText(m.name) + ("\"" + (m.afterKey + (":" + (m.beforeValue + ValueText(m.value, m.after + rest))))))
  }

  /** The members up to the closing brace, and what follows. */
  function MembersText(members: seq<Member>, rest: string): string {
    if members == [] then "}" + rest
    else members[0].before + MemberText(members[0], if |members| == 1 then "}" + rest else "," + MembersText(members[1..], rest))
  }

  function ObjectsText(objects: seq<Object>, rest: string): string {
    if objects == [] then "]" + rest
    else
      var o := objects[0];
      o.before + ("{" + MembersText(o.members, o.after + if |objects| == 1 then "]" + rest else "," + ObjectsText(objects[1..], rest)))
  }

  // ── What it says ─────────────────────────────────────────────────────────

  function CodePoint(digits: string): nat
    requires |digits| == 4 && forall i :: 0 <= i < 4 ==> IsHex(digits[i])
  {
    ((HexValue(digits[0]) * 16 + HexValue(digits[1])) * 16 + HexValue(digits[2])) * 16 + HexValue(digits[3])
  }

  /** What a character behind a backslash stands for. */
  function Named(c: char): char {
    if c == 'n' then '\n' else if c == 't' then '\t' else if c == 'r' then '\r'
    else if c == 'b' then 8 as char else if c == 'f' then 12 as char else c
  }

  function PieceValue(p: Piece): string {
    match p
    case Plain(c) => [c]
    case Short(c) => [Named(c)]
    case Code(digits) => if ProperPiece(p) then Utf8(CodePoint(digits)) else ""
  }

  function BodyValue(body: seq<Piece>): string {
    if body == [] then "" else PieceValue(body[0]) + BodyValue(body[1..])
  }

  /** A code becomes the UTF-8 of its code point (section 3 of RFC 3629). */
  lemma {:induction false} CodeIsUtf8(cp: nat)
    requires cp < 0x10000
    ensures var u := Utf8(cp);
            if cp < 0x80 then |u| == 1 && u[0] as int == cp
            else if cp < 0x800 then |u| == 2 && Leads(u[0], 0xC0, 0x20) && Follows(u[1]) && Low(u[0], 0xC0) * 64 + Low(u[1], 0x80) == cp
            else && |u| == 3 && Leads(u[0], 0xE0, 0x10) && Follows(u[1]) && Follows(u[2])
                 && (Low(u[0], 0xE0) * 64 + Low(u[1], 0x80)) * 64 + Low(u[2], 0x80) == cp
  {
    if cp >= 0x800 {
      assert (cp / 4096) % 32 == cp / 4096;
      assert cp / 4096 == cp / 64 / 64;
    }
  }

  predicate Leads(c: char, base: int, size: int) { base <= c as int < base + size }

  predicate Follows(c: char) { Leads(c, 0x80, 0x40) }

  function Low(c: char, base: int): int { c as int - base }

  /** The member at `n` is the last with this key. */
  ghost predicate LastAt(members: seq<Member>, key: string, n: int) {
    0 <= n < |members| && members[n].Key() == key && forall i :: n < i < |members| ==> members[i].Key() != key
  }

  predicate HasKey(members: seq<Member>, key: string) { exists i :: 0 <= i < |members| && members[i].Key() == key }

  /** The members name this tracker: the last URL, and the last tier as an `int`, or 0
      without one. */
  ghost predicate Says(members: seq<Member>, t: Tracker) {
    && (exists n :: LastAt(members, "url", n) && members[n].value.Quoted? && t.url == BodyValue(members[n].value.body))
    && (if HasKey(members, "tier") then exists n :: LastAt(members, "tier", n) && members[n].value.Number? && t.tier == AsInt32(members[n].value.n)
        else t.tier == 0)
  }

  function Apply(e: Partial, m: Member): Partial {
    if m.Key() == "tier" && m.value.Number? then e.(tier := AsInt32(m.value.n))
    else if m.Key() == "url" && m.value.Quoted? then e.(url := Some(BodyValue(m.value.body)))
    else e
  }

  function Fold(e: Partial, members: seq<Member>): Partial
    decreases |members|
  {
    if members == [] then e else Fold(Apply(e, members[0]), members[1..])
  }

  lemma {:induction false} LastIsLater(members: seq<Member>, key: string, n: int)
    requires LastAt(members, key, n) && n > 0
    ensures LastAt(members[1..], key, n - 1)
  {
  }

  lemma {:induction false} FoldUrl(e: Partial, members: seq<Member>, n: int)
    requires LastAt(members, "url", n) && members[n].value.Quoted?
    ensures Fold(e, members).url == Some(BodyValue(members[n].value.body))
    decreases |members|
  {
    if n == 0 {
      NoUrl(Apply(e, members[0]), members[1..]);
    } else {
      LastIsLater(members, "url", n);
      FoldUrl(Apply(e, members[0]), members[1..], n - 1);
    }
  }

  lemma {:induction false} NoUrl(e: Partial, members: seq<Member>)
    requires !HasKey(members, "url")
    ensures Fold(e, members).url == e.url
    decreases |members|
  {
    if members != [] {
      assert !HasKey(members[1..], "url");
      NoUrl(Apply(e, members[0]), members[1..]);
    }
  }

  lemma {:induction false} FoldTier(e: Partial, members: seq<Member>, n: int)
    requires LastAt(members, "tier", n) && members[n].value.Number?
    ensures Fold(e, members).tier == AsInt32(members[n].value.n)
    decreases |members|
  {
    if n == 0 {
      NoTier(Apply(e, members[0]), members[1..]);
    } else {
      LastIsLater(members, "tier", n);
      FoldTier(Apply(e, members[0]), members[1..], n - 1);
    }
  }

  lemma {:induction false} NoTier(e: Partial, members: seq<Member>)
    requires !HasKey(members, "tier")
    ensures Fold(e, members).tier == e.tier
    decreases |members|
  {
    if members != [] {
      assert !HasKey(members[1..], "tier");
      NoTier(Apply(e, members[0]), members[1..]);
    }
  }

  lemma {:induction false} FoldIs(members: seq<Member>, t: Tracker)
    requires Says(members, t)
    ensures Fold(Partial(0, None), members) == Partial(t.tier, Some(t.url))
  {
    var n :| LastAt(members, "url", n) && members[n].value.Quoted? && t.url == BodyValue(members[n].value.body);
    FoldUrl(Partial(0, None), members, n);
    if HasKey(members, "tier") {
      var m :| LastAt(members, "tier", m) && members[m].value.Number? && t.tier == AsInt32(members[m].value.n);
      FoldTier(Partial(0, None), members, m);
    } else {
      NoTier(Partial(0, None), members);
    }
  }

  // ── Reading it ───────────────────────────────────────────────────────────

  lemma {:induction false} BlankSkipped(ws: string, s: string)
    requires Blank(ws) && (s == "" || !IsSpace(s[0]))
    ensures SkipWs(ws + s) == s
  {
    if ws == "" {
      assert ws + s == s;
    } else {
      assert (ws + s)[1..] == ws[1..] + s;
      BlankSkipped(ws[1..], s);
    }
  }

  lemma {:induction false} CodeRead(digits: string, s: string)
    requires ProperPiece(Code(digits)) && s != ""
    ensures Unescape(['u'] + digits + s) == Read(Utf8(CodePoint(digits)), s)
  {
    var t := ['u'] + digits + s;
    assert t[1..5] == digits && t[5..] == s;
    HexCode(digits);
  }

  lemma {:induction false} HexCode(digits: string)
    requires ProperPiece(Code(digits))
    ensures Strtoul16(digits) == CodePoint(digits) && NUL !in digits
  {
    FourDigits(digits[0], digits[1], digits[2], digits[3], digits);
    NotPrefixed(digits, CodePoint(digits));
  }

  lemma {:induction false} FourDigits(a: char, b: char, c: char, d: char, digits: string)
    requires IsHex(a) && IsHex(b) && IsHex(c) && IsHex(d) && digits == [a, b, c, d]
    ensures HexRun(digits, 0) == CodePoint(digits) < 0x10000
  {
    var x := HexValue(a) * 16 + HexValue(b);
    var y := x * 16 + HexValue(c);
    assert digits == [a] + ([b] + ([c] + ([d] + "")));
    HexStep(a, [b] + ([c] + ([d] + "")), 0);
    HexStep(b, [c] + ([d] + ""), HexValue(a));
    HexStep(c, [d] + "", x);
    HexStep(d, "", y);
    assert x < 256 && y < 4096;
  }

  lemma {:induction false} NotPrefixed(digits: string, n: nat)
    requires |digits| == 4 && (forall i :: 0 <= i < 4 ==> IsHex(digits[i])) && HexRun(digits, 0) == n < 0x10000
    ensures Strtoul16(digits) == n && NUL !in digits
  {
    NoWs(digits);
  }

  lemma {:induction false} HexStep(c: char, rest: string, acc: nat)
    requires IsHex(c)
    ensures HexRun([c] + rest, acc) == HexRun(rest, acc * 16 + HexValue(c))
  {
    assert ([c] + rest)[1..] == rest;
  }

  lemma {:induction false} PieceRead(p: Piece, s: string)
    requires ProperPiece(p) && s != ""
    ensures var r := StringBody(s); StringBody(PieceText(p) + s) == Read(PieceValue(p) + r.value, r.rest)
  {
    match p
    case Plain(c) => assert ([c] + s)[1..] == s;
    case Short(c) =>
      assert ['\\', c] + s == "\\" + ([c] + s) && ([c] + s)[1..] == s;
      EscapedBody([c] + s);
    case Code(digits) =>
      assert ['\\', 'u'] + digits + s == "\\" + (['u'] + digits + s);
      CodeRead(digits, s);
      EscapedBody(['u'] + digits + s);
  }

  lemma {:induction false} BodyRead(body: seq<Piece>, rest: string)
    requires ProperBody(body)
    ensures StringBody(BodyText(body) + ("\"" + rest)) == Read(BodyValue(body), rest)
  {
    if body == [] {
      assert "" + ("\"" + rest) == "\"" + rest && ("\"" + rest)[1..] == rest;
    } else {
      var tail := BodyText(body[1..]) + ("\"" + rest);
      assert BodyText(body) + ("\"" + rest) == PieceText(body[0]) + tail;
      PieceRead(body[0], tail);
      BodyRead(body[1..], rest);
    }
  }

  predicate Starts(s: string) { s != "" && !IsSpace(s[0]) && !IsDigit(s[0]) }

  /** What follows a value does not lengthen it. */
  lemma {:induction false} AfterValue(ws: string, s: string)
    requires Blank(ws) && Starts(s)
    ensures ws + s != "" && !IsDigit((ws + s)[0])
  {
  }

  lemma {:induction false} ValueRead(m: Member, s: string, e: Partial)
    requires Proper(m) && s != "" && !IsDigit(s[0])
    ensures MemberValue(m.Key(), ValueText(m.value, s), e) == Some(Read(Apply(e, m), s))
  {
    if m.value.Number? {
      IntBack(m.value.n, s);
      NumberStarts(m.value.n, s);
    } else {
      var body := BodyText(m.value.body) + ("\"" + s);
      assert ("\"" + body)[1..] == body;
      BodyRead(m.value.body, s);
    }
  }

  lemma {:induction false} NumberStarts(n: int, s: string)
    ensures var t := ToDecInt(n) + s; t != "" && t[0] != '"' && !IsSpace(t[0])
  {
  }

  lemma {:induction false} ValueStarts(v: Value, s: string)
    ensures var t := ValueText(v, s); t != "" && !IsSpace(t[0])
  {
    if v.Number? { NumberStarts(v.n, s); }
  }

  /** A name and its colon, from the quote on. */
  lemma {:induction false} KeyRead(name: seq<Piece>, afterKey: string, beforeValue: string, value: string)
    requires ProperBody(name) && Blank(afterKey) && Blank(beforeValue) && value != "" && !IsSpace(value[0])
    ensures ParseKey("\"" + (BodyText(name) + ("\"" + (afterKey + (":" + (beforeValue + value)))))) == Some(Read(BodyValue(name), value))
  {
    var tail := afterKey + (":" + (beforeValue + value));
    var body := BodyText(name) + ("\"" + tail);
    NoWs("\"" + body);
    assert ("\"" + body)[1..] == body;
    BodyRead(name, tail);
    BlankSkipped(afterKey, ":" + (beforeValue + value));
    assert (":" + (beforeValue + value))[1..] == beforeValue + value;
    BlankSkipped(beforeValue, value);
  }

  lemma {:induction false} MemberRead(m: Member, s: string, e: Partial)
    requires Proper(m) && Starts(s)
    ensures ParseMember(MemberText(m, s), e) == Some(Read(Apply(e, m), SkipComma(s)))
  {
    ValueStarts(m.value, m.after + s);
    KeyRead(m.name, m.afterKey, m.beforeValue, ValueText(m.value, m.after + s));
    AfterValue(m.after, s);
    ValueRead(m, m.after + s, e);
    BlankSkipped(m.after, s);
  }

  lemma {:induction false} MembersRead(members: seq<Member>, rest: string, e: Partial)
    requires AllProper(members)
    ensures ParseMembers(SkipWs(MembersText(members, rest)), e) == Some(Read(Fold(e, members), "}" + rest))
  {
    if members == [] {
      NoWs("}" + rest);
    } else {
      var m, more := members[0], if |members| == 1 then "}" + rest else "," + MembersText(members[1..], rest);
      BlankSkipped(m.before, MemberText(m, more));
      MemberRead(m, more, e);
      assert AllProper(members[1..]);
      MembersRead(members[1..], rest, Apply(e, m));
      if |members| == 1 {
        assert members[1..] == [];
        NoWs("}" + rest);
      } else {
        assert ("," + MembersText(members[1..], rest))[1..] == MembersText(members[1..], rest);
      }
    }
  }

  /** What an object comes to: a tracker if there is a URL. */
  function TrackerOf(members: seq<Member>): Option<Tracker> {
    var e := Fold(Partial(0, None), members);
    if e.url.None? then None else Some(Tracker(e.tier, e.url.value))
  }

  lemma {:induction false} ObjectRead(members: seq<Member>, after: string, s: string)
    requires AllProper(members) && Blank(after) && (s == "" || !IsSpace(s[0]))
    ensures ParseEntry("{" + MembersText(members, after + s)) ==
            if TrackerOf(members).None? then None else Some(Read(TrackerOf(members).value, SkipComma(s)))
  {
    var inside := MembersText(members, after + s);
    assert ("{" + inside)[1..] == inside;
    MembersRead(members, after + s, Partial(0, None));
    assert ("}" + (after + s))[1..] == after + s;
    BlankSkipped(after, s);
  }

  function TrackersOf(objects: seq<Object>): Option<seq<Tracker>> {
    if objects == [] then Some([])
    else
      var first, others := TrackerOf(objects[0].members), TrackersOf(objects[1..]);
      if first.None? || others.None? then None else Some([first.value] + others.value)
  }

  lemma {:induction false} FirstObject(o: Object, s: string)
    requires Blank(o.before) && Blank(o.after) && AllProper(o.members) && (s == "" || !IsSpace(s[0]))
    ensures var first, others := TrackerOf(o.members), ParseEntries(SkipComma(s));
            ParseEntries(SkipWs(o.before + ("{" + MembersText(o.members, o.after + s)))) ==
            if first.None? || others.None? then None else Some([first.value] + others.value)
  {
    BlankSkipped(o.before, "{" + MembersText(o.members, o.after + s));
    ObjectRead(o.members, o.after, s);
  }

  lemma {:induction false} ObjectsRead(objects: seq<Object>, rest: string)
    requires ProperObjects(objects)
    ensures ParseEntries(SkipWs(ObjectsText(objects, rest))) == TrackersOf(objects)
  {
    if objects == [] {
      NoWs("]" + rest);
    } else {
      var s := if |objects| == 1 then "]" + rest else "," + ObjectsText(objects[1..], rest);
      FirstObject(objects[0], s);
      assert ProperObjects(objects[1..]);
      ObjectsRead(objects[1..], rest);
      if |objects| == 1 {
        assert objects[1..] == [];
        NoWs("]" + rest);
      } else {
        assert ("," + ObjectsText(objects[1..], rest))[1..] == ObjectsText(objects[1..], rest);
      }
    }
  }

  /** A list of objects, with white space around everything, is read as `TrackersOf`
      has it. */
  lemma {:induction false} ListRead(lead: string, inner: string, objects: seq<Object>, rest: string)
    requires Blank(lead) && Blank(inner) && ProperObjects(objects)
    ensures ParseTrackers(lead + ("[" + (inner + ObjectsText(objects, rest)))) == TrackersOf(objects)
  {
    var body := inner + ObjectsText(objects, rest);
    BlankSkipped(lead, "[" + body);
    assert ("[" + body)[1..] == body;
    SkipBoth(inner, ObjectsText(objects, rest));
    ObjectsRead(objects, rest);
  }

  lemma {:induction false} SkipBoth(ws: string, s: string)
    requires Blank(ws)
    ensures SkipWs(ws + s) == SkipWs(s)
  {
    if ws == "" {
      assert ws + s == s;
    } else {
      assert (ws + s)[1..] == ws[1..] + s;
      SkipBoth(ws[1..], s);
    }
  }

  ghost predicate AllSay(objects: seq<Object>, trackers: seq<Tracker>) {
    |trackers| == |objects| && forall i :: 0 <= i < |objects| ==> Says(objects[i].members, trackers[i])
  }

  lemma {:induction false} SaidIsMeant(objects: seq<Object>, trackers: seq<Tracker>)
    requires AllSay(objects, trackers)
    ensures TrackersOf(objects) == Some(trackers)
  {
    if objects != [] {
      FoldIs(objects[0].members, trackers[0]);
      assert AllSay(objects[1..], trackers[1..]) by {
        assert forall i :: 1 <= i < |objects| ==> objects[i] == objects[1..][i - 1] && trackers[i] == trackers[1..][i - 1];
      }
      SaidIsMeant(objects[1..], trackers[1..]);
      assert [trackers[0]] + trackers[1..] == trackers;
    }
  }

  /** However a tracker list is spelled, it is read as what its members say. */
  lemma {:induction false} SpelledIsRead(lead: string, inner: string, objects: seq<Object>, rest: string, trackers: seq<Tracker>)
    requires Blank(lead) && Blank(inner) && ProperObjects(objects) && AllSay(objects, trackers)
    ensures ParseTrackers(lead + ("[" + (inner + ObjectsText(objects, rest)))) == Some(trackers)
  {
    ListRead(lead, inner, objects, rest);
    SaidIsMeant(objects, trackers);
  }

  lemma {:induction false} NotMeant(objects: seq<Object>, n: nat)
    requires n < |objects| && !HasKey(objects[n].members, "url")
    ensures TrackersOf(objects).None?
  {
    NoUrl(Partial(0, None), objects[n].members);
    if n > 0 { NotMeant(objects[1..], n - 1); }
  }

  /** One object without a URL spoils the whole list. */
  lemma {:induction false} UrlIsNeeded(lead: string, inner: string, objects: seq<Object>, rest: string, n: nat)
    requires Blank(lead) && Blank(inner) && ProperObjects(objects) && n < |objects| && !HasKey(objects[n].members, "url")
    ensures ParseTrackers(lead + ("[" + (inner + ObjectsText(objects, rest)))).None?
  {
    ListRead(lead, inner, objects, rest);
    NotMeant(objects, n);
  }
}
