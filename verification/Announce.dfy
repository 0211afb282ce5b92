/** The tracker announce: the query the stall peer sends and what the tracker
    makes of the bytes it reads. */
module Announce {
  import opened Text

  // ── Percent encoding (section 2.1 of RFC 3986) ───────────────────────────

  predicate Unreserved(c: char) {
    IsDigit(c) || 'a' <= c <= 'z' || 'A' <= c <= 'Z' || c == '-' || c == '_' || c == '.' || c == '~'
  }

  function UpperHex(d: nat): char
    requires d < 16
  {
    if d < 10 then (48 + d) as char else (55 + d) as char
  }

  function EncodeByte(c: char): string
    requires IsByte(c)
  {
    if Unreserved(c) then [c] else ['%', UpperHex(c as int / 16), UpperHex(c as int % 16)]
  }

  function PercentEncoded(bytes: string): string
    requires AllBytes(bytes)
  {
    if bytes == "" then "" else EncodeByte(bytes[0]) + PercentEncoded(bytes[1..])
  }

  /** `u8::from_str_radix` with radix 16 on two characters; a leading '+' is a sign. */
  function FromHex(a: char, b: char): (r: Option<char>)
    ensures r.Some? ==> IsByte(r.value)
  {
    if !IsHex(b) then None
    else if IsHex(a) then Some((HexValue(a) * 16 + HexValue(b)) as char)
    else if a == '+' then Some(HexValue(b) as char)
    else None
  }

  function PercentDecoded(s: string): string {
    if s == "" then ""
    else if s[0] == '%' && |s| > 2 && FromHex(s[1], s[2]).Some? then
      [FromHex(s[1], s[2]).value] + PercentDecoded(s[3..])
    else [s[0]] + PercentDecoded(s[1..])
  }

  lemma {:induction false} ByteBack(c: char, rest: string)
    requires IsByte(c)
    ensures PercentDecoded(EncodeByte(c) + rest) == [c] + PercentDecoded(rest)
  {
    var s := EncodeByte(c) + rest;
    if Unreserved(c) { assert s[1..] == rest; } else { assert s[3..] == rest; }
  }

  /** Decoding undoes encoding, for every byte string and whatever follows. */
  lemma {:induction false} PercentRoundTrip(bytes: string)
    requires AllBytes(bytes)
    ensures PercentDecoded(PercentEncoded(bytes)) == bytes
  {
    if bytes != "" {
      ByteBack(bytes[0], PercentEncoded(bytes[1..]));
      PercentRoundTrip(bytes[1..]);
      assert [bytes[0]] + bytes[1..] == bytes;
    }
  }

  lemma {:induction false} EncodedIsPlain(bytes: string, c: char)
    requires AllBytes(bytes) && !Unreserved(c) && c != '%'
    ensures c !in PercentEncoded(bytes)
  {
    if bytes != "" { EncodedIsPlain(bytes[1..], c); }
  }

  // ── The info hash ────────────────────────────────────────────────────────

  function HexPairs(s: string): Option<string> {
    if |s| < 2 then Some("")
    else
      var b, others := FromHex(s[0], s[1]), HexPairs(s[2..]);
      if b.None? || others.None? then None else Some([b.value] + others.value)
  }

  function InfoHash(value: string): Option<string> {
    var raw := PercentDecoded(value);
    if |raw| == 20 then Some(raw)
    else if IsUtf8(raw) && |raw| == 40 then HexPairs(raw)
    else None
  }

  /** A hash as 40 hexadecimal digits; `digit` prints one, in either case. */
  function HexText(digit: nat -> char, hash: string): string {
    if hash == "" then "" else [digit(hash[0] as int / 16), digit(hash[0] as int % 16)] + HexText(digit, hash[1..])
  }

  ghost predicate PrintsHex(digit: nat -> char) {
    forall d: nat :: d < 16 ==> IsHex(digit(d)) && HexValue(digit(d)) == d
  }

  lemma {:induction false} HexTextBack(digit: nat -> char, hash: string)
    requires PrintsHex(digit) && AllBytes(hash)
    ensures var t := HexText(digit, hash);
            |t| == 2 * |hash| && '%' !in t && IsUtf8(t) && HexPairs(t) == Some(hash)
  {
    if hash != "" {
      HexTextBack(digit, hash[1..]);
      ByteInHex(digit, hash[0]);
      HexInFront(digit(hash[0] as int / 16), digit(hash[0] as int % 16), HexText(digit, hash[1..]));
      assert [hash[0]] + hash[1..] == hash;
    }
  }

  lemma {:induction false} ByteInHex(digit: nat -> char, c: char)
    requires PrintsHex(digit) && IsByte(c)
    ensures var high, low := digit(c as int / 16), digit(c as int % 16);
            IsHex(high) && IsHex(low) && HexValue(high) * 16 + HexValue(low) == c as int
  {
  }

  lemma {:induction false} AsciiInFront(c: char, rest: string)
    requires c as int < 0x80 && IsUtf8(rest)
    ensures IsUtf8([c] + rest)
  {
    assert ([c] + rest)[1..] == rest;
  }

  lemma {:induction false} HexInFront(high: char, low: char, rest: string)
    requires IsHex(high) && IsHex(low) && IsUtf8(rest) && '%' !in rest && HexPairs(rest).Some?
    ensures var t := [high, low] + rest;
            && IsUtf8(t) && '%' !in t
            && HexPairs(t) == Some([(HexValue(high) * 16 + HexValue(low)) as char] + HexPairs(rest).value)
  {
    AsciiInFront(low, rest);
    AsciiInFront(high, [low] + rest);
    assert [high] + ([low] + rest) == [high, low] + rest;
    assert ([high, low] + rest)[2..] == rest;
  }

  lemma {:induction false} NothingToDecode(s: string)
    requires '%' !in s
    ensures PercentDecoded(s) == s
  {
    if s != "" {
      NothingToDecode(s[1..]);
      assert [s[0]] + s[1..] == s;
    }
  }

  /** Both spellings of an info hash are understood. */
  lemma {:induction false} HashBothWays(digit: nat -> char, hash: string)
    requires PrintsHex(digit) && AllBytes(hash) && |hash| == 20
    ensures InfoHash(PercentEncoded(hash)) == Some(hash) == InfoHash(HexText(digit, hash))
  {
    PercentRoundTrip(hash);
    HexTextBack(digit, hash);
    NothingToDecode(HexText(digit, hash));
  }

  // ── Query parameters ─────────────────────────────────────────────────────

  /** Key and value of one pair. */
  function PairKey(pair: string): string { pair[..IndexOf(pair, '=')] }

  function PairValue(pair: string): string {
    var e := IndexOf(pair, '='); if e < |pair| then pair[e + 1..] else ""
  }

  function QueryParam(query: string, key: string): Option<string> {
    var end := IndexOf(query, '&');
    var pair := query[..end];
    if PairKey(pair) == key then Some(PairValue(pair))
    else if end == |query| then None
    else QueryParam(query[end + 1..], key)
  }

  datatype Param = Param(key: string, value: string)

  predicate Plain(p: Param) {
    '&' !in p.key && '=' !in p.key && '&' !in p.value && p.value != ""
  }

  function PairText(p: Param): string { p.key + "=" + p.value }

  /** The query from the pair at `i` on. */
  function QueryFrom(params: seq<Param>, i: nat): string
    requires i < |params|
    decreases |params| - i
  {
    if i == |params| - 1 then PairText(params[i]) else PairText(params[i]) + "&" + QueryFrom(params, i + 1)
  }

  function QueryText(params: seq<Param>): string
    requires params != []
  {
    QueryFrom(params, 0)
  }

  /** Where the pair at `j` ends, in the query from `i` on. */
  function EndFrom(params: seq<Param>, i: nat, j: nat): nat
    requires i <= j < |params|
    decreases j - i
  {
    if i == j then |PairText(params[i])| else |PairText(params[i])| + 1 + EndFrom(params, i + 1, j)
  }

  function EndOf(params: seq<Param>, j: nat): nat
    requires j < |params|
  {
    EndFrom(params, 0, j)
  }

  lemma {:induction false} WholePair(p: Param)
    requires Plain(p)
    ensures PairKey(PairText(p)) == p.key && PairValue(PairText(p)) == p.value && '&' !in PairText(p)
  {
    var text := PairText(p);
    assert text[..|p.key|] == p.key && text[|p.key| + 1..] == p.value;
    IndexOfIs(text, '=', |p.key|);
  }

  /** A pair cut short: a prefix of the key, or the key and a proper prefix of the value. */
  lemma {:induction false} CutPair(p: Param, k: nat)
    requires Plain(p) && k < |PairText(p)|
    ensures var pair := PairText(p)[..k];
            && '&' !in pair && PairKey(pair) <= p.key
            && PairValue(pair) < p.value
  {
    var text, pair := PairText(p), PairText(p)[..k];
    WholePair(p);
    if k <= |p.key| {
      assert pair == p.key[..k];
      IndexOfIs(pair, '=', k);
    } else {
      assert pair[..|p.key|] == p.key;
      IndexOfIs(pair, '=', |p.key|);
      assert pair[|p.key| + 1..] == p.value[..k - |p.key| - 1];
    }
  }

  /** The first pair of a query, whole, then the others. */
  lemma {:induction false} FirstPair(p: Param, rest: string, key: string)
    requires Plain(p)
    ensures QueryParam(PairText(p) + "&" + rest, key) == if p.key == key then Some(p.value) else QueryParam(rest, key)
  {
    var q := PairText(p) + "&" + rest;
    WholePair(p);
    assert q[..|PairText(p)|] == PairText(p) && q[|PairText(p)| + 1..] == rest;
    IndexOfIs(q, '&', |PairText(p)|);
  }

  lemma {:induction false} LastPair(pair: string, key: string)
    requires '&' !in pair
    ensures QueryParam(pair, key) == if PairKey(pair) == key then Some(PairValue(pair)) else None
  {
    assert pair[..|pair|] == pair;
    IndexOfIs(pair, '&', |pair|);
  }

  ghost predicate AllPlain(params: seq<Param>) { forall i :: 0 <= i < |params| ==> Plain(params[i]) }

  /** What the first `k` characters of the query from the pair at `i` on say. */
  function ReadCut(params: seq<Param>, i: nat, k: nat, key: string): Option<string>
    requires i < |params|
    decreases |params| - i
  {
    var pair := PairText(params[i]);
    if k <= |pair| then if PairKey(pair[..k]) == key then Some(PairValue(pair[..k])) else None
    else if params[i].key == key then Some(params[i].value)
    else if i == |params| - 1 then None
    else ReadCut(params, i + 1, k - |pair| - 1, key)
  }

  lemma {:induction false} NoSeparator(p: Param, k: nat)
    requires Plain(p) && k <= |PairText(p)|
    ensures '&' !in PairText(p)[..k]
  {
    WholePair(p);
  }

  /** `q` is the first `k` characters of the query from the pair at `i` on. */
  ghost predicate IsCut(params: seq<Param>, i: nat, k: nat, q: string)
    requires i < |params|
  {
    k <= |QueryFrom(params, i)| && q == QueryFrom(params, i)[..k]
  }

  lemma {:induction false} CutLater(params: seq<Param>, i: nat, k: nat, q: string) returns (rest: string)
    requires i < |params| && |PairText(params[i])| < k && IsCut(params, i, k, q)
    ensures i + 1 < |params| && IsCut(params, i + 1, k - |PairText(params[i])| - 1, rest)
    ensures q == PairText(params[i]) + "&" + rest
  {
    rest := QueryFrom(params, i + 1)[..k - |PairText(params[i])| - 1];
  }

  lemma {:induction false} ReadHere(params: seq<Param>, i: nat, k: nat, key: string, q: string)
    requires i < |params| && Plain(params[i]) && k <= |PairText(params[i])| && IsCut(params, i, k, q)
    ensures QueryParam(q, key) == ReadCut(params, i, k, key)
  {
    assert q == PairText(params[i])[..k];
    NoSeparator(params[i], k);
    LastPair(q, key);
  }

  lemma {:induction false} ReadLater(params: seq<Param>, i: nat, k: nat, key: string, q: string, rest: string)
    requires i + 1 < |params| && Plain(params[i]) && |PairText(params[i])| < k && q == PairText(params[i]) + "&" + rest
    requires QueryParam(rest, key) == ReadCut(params, i + 1, k - |PairText(params[i])| - 1, key)
    ensures QueryParam(q, key) == ReadCut(params, i, k, key)
  {
    FirstPair(params[i], rest, key);
  }

  lemma {:induction false} CutIsRead(params: seq<Param>, i: nat, k: nat, key: string, q: string)
    requires i < |params| && AllPlain(params) && IsCut(params, i, k, q)
    ensures QueryParam(q, key) == ReadCut(params, i, k, key)
    decreases |params| - i
  {
    if k <= |PairText(params[i])| {
      ReadHere(params, i, k, key, q);
    } else {
      var rest := CutLater(params, i, k, q);
      CutIsRead(params, i + 1, k - |PairText(params[i])| - 1, key, rest);
      ReadLater(params, i, k, key, q, rest);
    }
  }

  /** A cut inside the pair at `i`, or right after it. */
  lemma {:induction false} CutHere(params: seq<Param>, i: nat, k: nat, key: string)
    requires i < |params| && Plain(params[i]) && k <= |PairText(params[i])|
    ensures var p, r := params[i], ReadCut(params, i, k, key);
            && (k == |PairText(p)| && p.key == key ==> r == Some(p.value))
            && (k < |PairText(p)| && r.Some? ==> r.value < p.value)
            && (r.Some? ==> key <= p.key)
  {
    var p := params[i];
    WholePair(p);
    if k == |PairText(p)| {
      assert PairText(p)[..k] == PairText(p);
    } else {
      CutPair(p, k);
    }
  }

  lemma {:induction false} FoundFrom(params: seq<Param>, i: nat, j: nat, k: nat)
    requires i <= j < |params| && AllPlain(params)
    requires forall m :: 0 <= m < j ==> params[m].key != params[j].key
    requires EndFrom(params, i, j) <= k
    ensures ReadCut(params, i, k, params[j].key) == Some(params[j].value)
    decreases j - i
  {
    if k == |PairText(params[i])| {
      CutHere(params, i, k, params[j].key);
    } else if i < j {
      FoundFrom(params, i + 1, j, k - |PairText(params[i])| - 1);
    }
  }

  /** A pair that lies wholly before the cut is found. */
  lemma {:induction false} Found(params: seq<Param>, j: nat, k: nat)
    requires j < |params| && AllPlain(params)
    requires forall m :: 0 <= m < j ==> params[m].key != params[j].key
    requires EndOf(params, j) <= k <= |QueryText(params)|
    ensures QueryParam(QueryText(params)[..k], params[j].key) == Some(params[j].value)
  {
    CutIsRead(params, 0, k, params[j].key, QueryText(params)[..k]);
    FoundFrom(params, 0, j, k);
  }

  lemma {:induction false} CutOffFrom(params: seq<Param>, i: nat, j: nat, k: nat)
    requires i <= j < |params| && AllPlain(params)
    requires forall m :: 0 <= m < j ==> !(params[j].key <= params[m].key)
    requires k < EndFrom(params, i, j)
    ensures var r := ReadCut(params, i, k, params[j].key); r.None? || r.value < params[j].value
    decreases j - i
  {
    if k <= |PairText(params[i])| {
      CutHere(params, i, k, params[j].key);
    } else {
      CutOffFrom(params, i + 1, j, k - |PairText(params[i])| - 1);
    }
  }

  /** A pair the cut falls in or before is missing, or has lost part of its value. */
  lemma {:induction false} CutOff(params: seq<Param>, j: nat, k: nat)
    requires j < |params| && AllPlain(params)
    requires forall m :: 0 <= m < j ==> !(params[j].key <= params[m].key)
    requires k < EndOf(params, j) && k <= |QueryText(params)|
    ensures var r := QueryParam(QueryText(params)[..k], params[j].key); r.None? || r.value < params[j].value
  {
    CutIsRead(params, 0, k, params[j].key, QueryText(params)[..k]);
    CutOffFrom(params, 0, j, k);
  }

  // ── The request ──────────────────────────────────────────────────────────

  /** What the stall peer announces. */
  datatype Announcement = Announcement(infoHash: string, peerId: string, port: nat, first: bool)

  ghost predicate Proper(a: Announcement) {
    AllBytes(a.infoHash) && |a.infoHash| == 20 && AllBytes(a.peerId) && |a.peerId| == 20 && a.port < 65536
  }

  const LEFT: nat := 5
  const EVENT: nat := 8

  function Params(a: Announcement): (params: seq<Param>)
    requires Proper(a)
    ensures |params| == if a.first then 9 else 8
  {
    [Param("info_hash", PercentEncoded(a.infoHash)), Param("peer_id", PercentEncoded(a.peerId)),
     Param("port", ToDec(a.port)), Param("uploaded", "0"), Param("downloaded", "0"), Param("left", "0"),
     Param("compact", "1"), Param("numwant", "50")] + if a.first then [Param("event", "started")] else []
  }

  function Head(path: string): string { "GET " + path + "?" }

  function Tail(host: string): string { " HTTP/1.0\r\nHost: " + host + "\r\nConnection: close\r\n\r\n" }

  function Request(path: string, a: Announcement, host: string): string
    requires Proper(a)
  {
    Head(path) + QueryText(Params(a)) + Tail(host)
  }

  // ── The tracker's reading of it ──────────────────────────────────────────

  /** The first line, without its line break. */
  function FirstLine(s: string): string {
    var end := IndexOf(s, '\n');
    if 0 < end < |s| && s[end - 1] == '\r' then s[..end - 1] else s[..end]
  }

  /** What lies between the first '?' and the next space. */
  function QueryIn(line: string): Option<string> {
    var mark := IndexOf(line, '?');
    if mark == |line| then None
    else var q := line[mark + 1..]; Some(q[..IndexOf(q, ' ')])
  }

  function RawQuery(s: string): Option<string> { QueryIn(FirstLine(s)) }

  datatype Understood = Understood(infoHash: string, port: nat, left: nat, event: string)

  function PortOf(query: string): Option<nat> {
    var v := QueryParam(query, "port"); if v.None? then None else ParseUnsigned(v.value, 65536)
  }

  function LeftOf(query: string): nat {
    var v := QueryParam(query, "left");
    var n := if v.None? then None else ParseUnsigned(v.value, U64);
    if n.None? then U64 - 1 else n.value
  }

  function EventOf(query: string): string {
    var v := QueryParam(query, "event"); if v.None? then "" else v.value
  }

  function HashOf(query: string): Option<string> {
    var v := QueryParam(query, "info_hash"); if v.None? then None else InfoHash(v.value)
  }

  function UnderstandQuery(q: string): Option<Understood> {
    if HashOf(q).None? || PortOf(q).None? then None
    else Some(Understood(HashOf(q).value, PortOf(q).value, LeftOf(q), EventOf(q)))
  }

  /** `None` is the `400 Bad Request` reply. */
  function Understand(s: string): Option<Understood> {
    var q := RawQuery(s); if q.None? then None else UnderstandQuery(q.value)
  }

  function Meant(a: Announcement): Understood {
    Understood(a.infoHash, a.port, 0, if a.first then "started" else "")
  }

  // ── Proofs ───────────────────────────────────────────────────────────────

  /** The query of a line that has one. */
  lemma {:induction false} QueryOfLine(head: string, query: string, more: string)
    requires '?' !in head && ' ' !in query && (more == "" || more[0] == ' ')
    ensures QueryIn(head + "?" + query + more) == Some(query)
  {
    var line := head + "?" + query + more;
    assert line[..|head|] == head && line[|head| + 1..] == query + more;
    IndexOfIs(line, '?', |head|);
    assert (query + more)[..|query|] == query;
    IndexOfIs(query + more, ' ', |query|);
  }

  lemma {:induction false} NoQuery(line: string)
    requires '?' !in line
    ensures QueryIn(line).None?
  {
    assert line[..|line|] == line;
    IndexOfIs(line, '?', |line|);
  }

  /** The query survives whatever part of the request was read. */
  lemma {:induction false} QueryOfPart(head: string, query: string, tail: string, n: nat)
    requires '?' !in head && '\n' !in head && ' ' !in query && '\n' !in query
    requires " HTTP/1.0\r\n" <= tail && n <= |head + "?" + query + tail|
    ensures var k := n - |head| - 1;
            RawQuery((head + "?" + query + tail)[..n]) ==
            if k < 0 then None else Some(query[..if k < |query| then k else |query|])
  {
    var front, line := head + "?" + query, FirstLine((head + "?" + query + tail)[..n]);
    LineOfPart(front, tail, n);
    if n <= |head| {
      assert line == head[..n];
      NoQuery(line);
    } else if n <= |front| {
      var part := query[..n - |head| - 1];
      assert line == head + "?" + part + "";
      QueryOfLine(head, part, "");
    } else {
      var more := line[|front|..];
      assert more[0] == line[..|front| + 1][|front|] == ' ';
      assert line == front + more by { assert line[..|front|] == line[..|front| + 1][..|front|] == front; }
      QueryOfLine(head, query, more);
      assert query[..|query|] == query;
    }
  }

  /** The line read starts with all of `front` that was read, and the space after it. */
  lemma {:induction false} LineOfPart(front: string, tail: string, n: nat)
    requires '\n' !in front && " HTTP/1.0\r\n" <= tail && n <= |front + tail|
    ensures var line := FirstLine((front + tail)[..n]);
            if n <= |front| then line == front[..n] else |line| > |front| && line[..|front| + 1] == front + " "
  {
    var s, version := (front + tail)[..n], " HTTP/1.0\r";
    if n <= |front| {
      assert s == front[..n];
      LineWithoutEnd(s);
    } else if n <= |front| + |version| {
      assert tail[..n - |front|] == version[..n - |front|] && s == front + version[..n - |front|];
      assert '\n' !in version;
      LineWithoutEnd(s);
      assert version[0] == ' ';
    } else {
      var rest := tail[|version|..][..n - |front| - |version|];
      assert tail[..|version|] == version && tail[|version|] == '\n';
      assert s == front + " HTTP/1.0" + "\r" + rest && rest[0] == '\n';
      LineWithEnd(front + " HTTP/1.0", rest);
      assert " HTTP/1.0"[0] == ' ';
    }
  }

  lemma {:induction false} LineWithoutEnd(s: string)
    requires '\n' !in s
    ensures FirstLine(s) == s
  {
    assert s[..|s|] == s;
    IndexOfIs(s, '\n', |s|);
  }

  lemma {:induction false} LineWithEnd(line: string, rest: string)
    requires '\n' !in line && rest != "" && rest[0] == '\n'
    ensures FirstLine(line + "\r" + rest) == line
  {
    var s := line + "\r" + rest;
    assert s[..|line| + 1] == line + "\r" && s[..|line|] == line;
    IndexOfIs(s, '\n', |line| + 1);
  }

  ghost predicate Word(w: string) { w != "" && forall i :: 0 <= i < |w| ==> Unreserved(w[i]) }

  ghost predicate Safe(p: Param) { Plain(p) && ' ' !in PairText(p) && '\n' !in PairText(p) }

  lemma {:induction false} SafeParam(key: string, value: string)
    requires Word(key) && value != "" && '&' !in value && ' ' !in value && '\n' !in value
    ensures Safe(Param(key, value))
  {
  }

  lemma {:induction false} SafeBytes(key: string, bytes: string)
    requires Word(key) && AllBytes(bytes) && bytes != ""
    ensures Safe(Param(key, PercentEncoded(bytes)))
  {
    EncodedIsPlain(bytes, '&');
    EncodedIsPlain(bytes, ' ');
    EncodedIsPlain(bytes, '\n');
    SafeParam(key, PercentEncoded(bytes));
  }

  lemma {:induction false} SafeNumber(key: string, n: nat)
    requires Word(key)
    ensures Safe(Param(key, ToDec(n)))
  {
    DigitsOnly(ToDec(n), '&');
    DigitsOnly(ToDec(n), ' ');
    DigitsOnly(ToDec(n), '\n');
    SafeParam(key, ToDec(n));
  }

  lemma {:induction false} CountersAreSafe()
    ensures Safe(Param("uploaded", "0")) && Safe(Param("downloaded", "0")) && Safe(Param("left", "0"))
    ensures Safe(Param("compact", "1")) && Safe(Param("numwant", "50")) && Safe(Param("event", "started"))
  {
    SafeParam("uploaded", "0");
    SafeParam("downloaded", "0");
    SafeParam("left", "0");
    SafeParam("compact", "1");
    SafeParam("numwant", "50");
    SafeParam("event", "started");
  }

  lemma {:induction false} ParamsAreSafe(a: Announcement)
    requires Proper(a)
    ensures forall i :: 0 <= i < |Params(a)| ==> Safe(Params(a)[i])
  {
    SafeBytes("info_hash", a.infoHash);
    SafeBytes("peer_id", a.peerId);
    SafeNumber("port", a.port);
    CountersAreSafe();
  }

  lemma {:induction false} QueryIsPlain(params: seq<Param>, i: nat, c: char)
    requires i < |params| && c != '&' && forall m :: 0 <= m < |params| ==> c !in PairText(params[m])
    ensures c !in QueryFrom(params, i)
    decreases |params| - i
  {
    if i < |params| - 1 { QueryIsPlain(params, i + 1, c); }
  }

  lemma {:induction false} EndsInside(params: seq<Param>, i: nat, j: nat)
    requires i <= j < |params|
    ensures EndFrom(params, i, j) <= |QueryFrom(params, i)|
    ensures j == |params| - 1 ==> EndFrom(params, i, j) == |QueryFrom(params, i)|
    decreases j - i
  {
    if i < j { EndsInside(params, i + 1, j); }
  }

  lemma {:induction false} EndsGrow(params: seq<Param>, i: nat, j: nat, k: nat)
    requires i <= j <= k < |params|
    ensures EndFrom(params, i, j) <= EndFrom(params, i, k)
    decreases j - i
  {
    if i < j { EndsGrow(params, i + 1, j, k); }
  }

  /** What the tracker must read: up to `left=0`, or all of the query when the
      event is part of the message. */
  function Enough(path: string, a: Announcement): nat
    requires Proper(a)
  {
    |Head(path)| + EndOf(Params(a), if a.first then EVENT else LEFT)
  }

  lemma {:induction false} KeysDiffer(a: Announcement)
    requires Proper(a)
    ensures var ps := Params(a);
            && (forall i :: 0 <= i < 2 ==> !("port" <= ps[i].key))
            && (forall i :: 0 <= i < LEFT ==> !("left" <= ps[i].key))
            && (forall i :: 0 <= i < 8 ==> !("event" <= ps[i].key))
  {
    var ps := Params(a);
    assert ps[0].key[0] == 'i' && ps[1].key[1] == 'e' && ps[1].key[0] == 'p' && ps[2].key[0] == 'p';
    assert ps[3].key[0] == 'u' && ps[4].key[0] == 'd' && ps[5].key[0] == 'l' && ps[6].key[0] == 'c' && ps[7].key[0] == 'n';
  }

  /** What the tracker finds in the part of a query that it read. */
  lemma {:induction false} ReadEnough(a: Announcement, k: nat)
    requires Proper(a) && EndOf(Params(a), LEFT) <= k <= |QueryText(Params(a))|
    ensures var q := QueryText(Params(a))[..k];
            HashOf(q) == Some(a.infoHash) && PortOf(q) == Some(a.port) && LeftOf(q) == 0
  {
    HashRead(a, k);
    PortRead(a, k);
    LeftRead(a, k);
  }

  lemma {:induction false} HashRead(a: Announcement, k: nat)
    requires Proper(a) && EndOf(Params(a), LEFT) <= k <= |QueryText(Params(a))|
    ensures HashOf(QueryText(Params(a))[..k]) == Some(a.infoHash)
  {
    ParamsAreSafe(a);
    EndsGrow(Params(a), 0, 0, LEFT);
    Found(Params(a), 0, k);
    PercentRoundTrip(a.infoHash);
  }

  lemma {:induction false} PortRead(a: Announcement, k: nat)
    requires Proper(a) && EndOf(Params(a), LEFT) <= k <= |QueryText(Params(a))|
    ensures PortOf(QueryText(Params(a))[..k]) == Some(a.port)
  {
    ParamsAreSafe(a);
    KeysDiffer(a);
    EndsGrow(Params(a), 0, 2, LEFT);
    Found(Params(a), 2, k);
    ParseDec(a.port, 65536);
  }

  lemma {:induction false} LeftRead(a: Announcement, k: nat)
    requires Proper(a) && EndOf(Params(a), LEFT) <= k <= |QueryText(Params(a))|
    ensures LeftOf(QueryText(Params(a))[..k]) == 0
  {
    ParamsAreSafe(a);
    KeysDiffer(a);
    Found(Params(a), LEFT, k);
    ParseDec(0, U64);
    assert ToDec(0) == "0";
  }

  lemma {:induction false} ReadTooLittle(a: Announcement, k: nat)
    requires Proper(a) && k < EndOf(Params(a), LEFT)
    ensures k <= |QueryText(Params(a))| && LeftOf(QueryText(Params(a))[..k]) != 0
  {
    ParamsAreSafe(a);
    KeysDiffer(a);
    EndsInside(Params(a), 0, LEFT);
    CutOff(Params(a), LEFT, k);
    LeftIsMissed(QueryText(Params(a))[..k]);
  }

  lemma {:induction false} LeftIsMissed(q: string)
    requires QueryParam(q, "left").None? || QueryParam(q, "left").value < "0"
    ensures LeftOf(q) != 0
  {
  }

  lemma {:induction false} EventRead(a: Announcement, k: nat)
    requires Proper(a) && k <= |QueryText(Params(a))|
    ensures var e := EventOf(QueryText(Params(a))[..k]);
            if a.first then e == "started" <==> k == |QueryText(Params(a))| else e == ""
  {
    var ps := Params(a);
    ParamsAreSafe(a);
    KeysDiffer(a);
    if a.first {
      EndsInside(ps, 0, EVENT);
      if k == |QueryText(ps)| { Found(ps, EVENT, k); } else { CutOff(ps, EVENT, k); }
    } else {
      NotThere(ps, k, "event");
    }
  }

  lemma {:induction false} NotThereFrom(params: seq<Param>, i: nat, k: nat, key: string)
    requires i < |params| && AllPlain(params) && (forall m :: i <= m < |params| ==> !(key <= params[m].key))
    ensures ReadCut(params, i, k, key).None?
    decreases |params| - i
  {
    if k <= |PairText(params[i])| {
      CutHere(params, i, k, key);
    } else if i < |params| - 1 {
      NotThereFrom(params, i + 1, k - |PairText(params[i])| - 1, key);
    }
  }

  lemma {:induction false} NotThere(params: seq<Param>, k: nat, key: string)
    requires params != [] && AllPlain(params) && (forall m :: 0 <= m < |params| ==> !(key <= params[m].key))
    requires k <= |QueryText(params)|
    ensures QueryParam(QueryText(params)[..k], key).None?
  {
    CutIsRead(params, 0, k, key, QueryText(params)[..k]);
    NotThereFrom(params, 0, k, key);
  }

  lemma {:induction false} QueryUnderstoodExactly(a: Announcement, k: nat)
    requires Proper(a) && k <= |QueryText(Params(a))|
    ensures UnderstandQuery(QueryText(Params(a))[..k]) == Some(Meant(a)) <==>
            k >= EndOf(Params(a), if a.first then EVENT else LEFT)
  {
    var ps := Params(a);
    EventRead(a, k);
    EndsInside(ps, 0, |ps| - 1);
    if a.first { EndsGrow(ps, 0, LEFT, EVENT); }
    if k >= EndOf(ps, LEFT) { ReadEnough(a, k); } else { ReadTooLittle(a, k); }
  }

  lemma {:induction false} QueryRead(path: string, a: Announcement, host: string, n: nat)
    requires Proper(a) && '?' !in path && '\n' !in path && n <= |Request(path, a, host)|
    ensures var q, k := QueryText(Params(a)), n - |Head(path)|;
            RawQuery(Request(path, a, host)[..n]) == if k < 0 then None else Some(q[..if k < |q| then k else |q|])
  {
    var ps := Params(a);
    ParamsAreSafe(a);
    QueryIsPlain(ps, 0, ' ');
    QueryIsPlain(ps, 0, '\n');
    QueryOfPart("GET " + path, QueryText(ps), Tail(host), n);
  }

  // ── A path with a query of its own ───────────────────────────────────────

  lemma {:induction false} AnyPair(pair: string, rest: string, key: string)
    requires '&' !in pair
    ensures QueryParam(pair + "&" + rest, key) == if PairKey(pair) == key then Some(PairValue(pair)) else QueryParam(rest, key)
  {
    var q := pair + "&" + rest;
    assert q[..|pair|] == pair && q[|pair| + 1..] == rest;
    IndexOfIs(q, '&', |pair|);
  }

  /** The key of a pair is what precedes its first '='. */
  lemma {:induction false} KeyOfMore(x: string, y: string)
    ensures if '=' in x then PairKey(x + y) == PairKey(x) else PairKey(x) == x && PairValue(x) == "" && x <= PairKey(x + y)
  {
    var i := IndexOf(x, '=');
    IndexIsFirst(x, '=');
    IndexIsFirst(x + y, '=');
    if i < |x| {
      assert (x + y)[..i] == x[..i];
      IndexOfIs(x + y, '=', i);
    } else {
      assert x[..|x|] == x;
      var j := IndexOf(x + y, '=');
      assert (x + y)[..j][..|x|] == x;
    }
  }

  /** Nothing is found, or a key without a value. */
  ghost predicate Bare(r: Option<string>) { r.None? || r.value == "" }

  lemma {:induction false} CutFindsInPair(pair: string, k: nat, key: string)
    requires '&' !in pair && k <= |pair| && PairKey(pair) != key
    ensures Bare(QueryParam(pair[..k], key))
  {
    LastPair(pair[..k], key);
    KeyOfMore(pair[..k], pair[k..]);
    assert pair[..k] + pair[k..] == pair;
  }

  lemma {:induction false} SplitAtAmp(q: string) returns (pair: string, rest: string)
    requires '&' in q
    ensures '&' !in pair && q == pair + "&" + rest
  {
    IndexIsFirst(q, '&');
    pair, rest := q[..IndexOf(q, '&')], q[IndexOf(q, '&') + 1..];
  }

  /** A key that is not in a query is not found in a part of it either, unless as
      the bare start of another. */
  lemma {:induction false} CutFinds(q: string, k: nat, key: string)
    requires k <= |q| && QueryParam(q, key).None?
    ensures Bare(QueryParam(q[..k], key))
    decreases |q|, 1
  {
    if '&' !in q {
      LastPair(q, key);
      CutFindsInPair(q, k, key);
    } else {
      var pair, rest := SplitAtAmp(q);
      CutFindsInPairs(pair, rest, k, key);
    }
  }

  lemma {:induction false} CutFindsInPairs(pair: string, rest: string, k: nat, key: string)
    requires '&' !in pair && k <= |pair + "&" + rest| && QueryParam(pair + "&" + rest, key).None?
    ensures Bare(QueryParam((pair + "&" + rest)[..k], key))
    decreases |pair + "&" + rest|, 0
  {
    assert PairKey(pair) != key && QueryParam(rest, key).None? by { AnyPair(pair, rest, key); }
    if k <= |pair| {
      assert (pair + "&" + rest)[..k] == pair[..k];
      CutFindsInPair(pair, k, key);
    } else {
      var cut := rest[..k - |pair| - 1];
      CutFinds(rest, |cut|, key);
      assert (pair + "&" + rest)[..k] == pair + "&" + cut;
      CutFindsBehind(pair, cut, key);
    }
  }

  lemma {:induction false} CutFindsBehind(pair: string, cut: string, key: string)
    requires '&' !in pair && PairKey(pair) != key && Bare(QueryParam(cut, key))
    ensures Bare(QueryParam(pair + "&" + cut, key))
  {
    AnyPair(pair, cut, key);
  }

  /** A pair behind a '?' is not found, and so much less behind a query of its own. */
  lemma {:induction false} HiddenPair(own: string, key: string, value: string, others: string)
    requires '&' !in key && '&' !in value && '?' !in key
    requires QueryParam(own + "?", key).None? && QueryParam(others, key).None?
    ensures QueryParam(own + "?" + (key + "=" + value) + "&" + others, key).None?
    decreases |own|
  {
    var i, pair := IndexOf(own, '&'), key + "=" + value;
    IndexIsFirst(own, '&');
    if i < |own| {
      var p, rest := own[..i], own[i + 1..];
      assert own + "?" == p + "&" + (rest + "?");
      assert own + "?" + pair + "&" + others == p + "&" + (rest + "?" + pair + "&" + others);
      AnyPair(p, rest + "?", key);
      AnyPair(p, rest + "?" + pair + "&" + others, key);
      HiddenPair(rest, key, value, others);
    } else {
      LastPair(own + "?", key);
      AnyPair(own + "?" + pair, others, key);
      KeyOfMore(own + "?", pair);
      MarkedKey(own, pair, key);
    }
  }

  lemma {:induction false} MarkedKey(own: string, pair: string, key: string)
    requires '?' !in key && PairKey(own + "?") != key
    ensures PairKey(own + "?" + pair) != key
  {
    KeyOfMore(own + "?", pair);
    assert (own + "?")[|own|] == '?';
    if own + "?" <= PairKey(own + "?" + pair) { assert PairKey(own + "?" + pair)[|own|] == '?'; }
  }

  /** The query the path of an announce URL has of its own. */
  function OwnQuery(path: string): string {
    var mark := IndexOf(path, '?'); if mark < |path| then path[mark + 1..] else ""
  }

  /** It does not name a hash. */
  predicate NoOwnHash(path: string) { '?' in path ==> QueryParam(OwnQuery(path) + "?", "info_hash").None? }

  lemma {:induction false} FirstLineIsPrefix(s: string)
    ensures FirstLine(s) <= s && |FirstLine(s)| <= IndexOf(s, '\n')
  {
  }

  /** Whatever is read of a line, its query is a part of what follows the first '?'. */
  lemma {:induction false} RawIsPart(pre: string, query: string, tail: string, n: nat)
    requires '?' !in pre && tail != "" && tail[0] == ' ' && n <= |pre + "?" + query + tail|
    ensures var r := RawQuery((pre + "?" + query + tail)[..n]); r.None? || r.value <= query
  {
    var all := pre + "?" + query + tail;
    var line := FirstLine(all[..n]);
    FirstLineIsPrefix(all[..n]);
    assert line == all[..|line|];
    if |line| <= |pre| {
      assert line == pre[..|line|];
      NoQuery(line);
    } else {
      assert line[..|pre|] == pre && line[|pre|] == '?';
      IndexOfIs(line, '?', |pre|);
      assert all == pre + "?" + (query + tail);
      CutAtSpace(query, tail, line[|pre| + 1..]);
    }
  }

  lemma {:induction false} CutAtSpace(query: string, tail: string, q: string)
    requires tail != "" && tail[0] == ' ' && q <= query + tail
    ensures q[..IndexOf(q, ' ')] <= query
  {
    IndexIsFirst(q, ' ');
    if |q| > |query| { assert q[|query|] == ' '; }
  }

  lemma {:induction false} NoHashNoReply(q: string)
    requires Bare(QueryParam(q, "info_hash"))
    ensures UnderstandQuery(q).None?
  {
    assert PercentDecoded("") == "";
  }

  lemma {:induction false} OthersAreNotHash(a: Announcement)
    requires Proper(a)
    ensures forall m :: 1 <= m < |Params(a)| ==> !("info_hash" <= Params(a)[m].key)
  {
    var ps := Params(a);
    assert ps[1].key[0] == 'p' && ps[2].key[0] == 'p' && ps[3].key[0] == 'u' && ps[4].key[0] == 'd';
    assert ps[5].key[0] == 'l' && ps[6].key[0] == 'c' && ps[7].key[0] == 'n' && (a.first ==> ps[8].key[0] == 'e');
    assert "info_hash"[0] == 'i';
  }

  lemma {:induction false} OnlyFirstIsHash(a: Announcement)
    requires Proper(a)
    ensures QueryParam(QueryFrom(Params(a), 1), "info_hash").None?
  {
    ParamsAreSafe(a);
    OthersAreNotHash(a);
    NotAfter(Params(a), 1, "info_hash");
  }

  lemma {:induction false} NotAfter(params: seq<Param>, i: nat, key: string)
    requires i < |params| && AllPlain(params) && (forall m :: i <= m < |params| ==> !(key <= params[m].key))
    ensures QueryParam(QueryFrom(params, i), key).None?
  {
    var q := QueryFrom(params, i);
    assert q[..|q|] == q;
    CutIsRead(params, i, |q|, key, q);
    NotThereFrom(params, i, |q|, key);
  }

  lemma {:induction false} HashIsHidden(own: string, a: Announcement)
    requires Proper(a) && QueryParam(own + "?", "info_hash").None?
    ensures QueryParam(own + "?" + QueryText(Params(a)), "info_hash").None?
  {
    var ps := Params(a);
    var first, others := PairText(ps[0]), QueryFrom(ps, 1);
    ParamsAreSafe(a);
    OnlyFirstIsHash(a);
    HiddenPair(own, "info_hash", ps[0].value, others);
    FirstAndOthers(own + "?", first, others);
  }

  lemma {:induction false} FirstAndOthers(pre: string, first: string, others: string)
    ensures pre + (first + "&" + others) == pre + first + "&" + others
  {
    Regroup(pre, first, "&", others);
  }

  lemma {:induction false} NoPartTells(pre: string, query: string, tail: string, n: nat)
    requires '?' !in pre && tail != "" && tail[0] == ' ' && n <= |pre + "?" + query + tail|
    requires QueryParam(query, "info_hash").None?
    ensures Understand((pre + "?" + query + tail)[..n]).None?
  {
    RawIsPart(pre, query, tail, n);
    PartIsQuiet((pre + "?" + query + tail)[..n], query);
  }

  lemma {:induction false} PartIsQuiet(s: string, query: string)
    requires RawQuery(s).None? || RawQuery(s).value <= query
    requires QueryParam(query, "info_hash").None?
    ensures Understand(s).None?
  {
    var r := RawQuery(s);
    if r.Some? {
      assert r.value == query[..|r.value|];
      CutFinds(query, |r.value|, "info_hash");
      NoHashNoReply(r.value);
    }
  }

  lemma {:induction false} MarkMoves(get: string, head: string, own: string, query: string, tail: string)
    ensures get + (head + "?" + own) + "?" + query + tail == (get + head) + "?" + (own + "?" + query) + tail
  {
    Regroup(get, head, "?", own);
    Regroup(get + head, "?", own, "?" + query);
  }

  lemma {:induction false} AtMark(path: string)
    requires '?' in path
    ensures path == path[..IndexOf(path, '?')] + "?" + OwnQuery(path) && '?' !in path[..IndexOf(path, '?')]
  {
    IndexIsFirst(path, '?');
  }

  /** A query of its own, if it names no hash, hides the one of the announce. */
  lemma {:induction false} OwnQueryHides(path: string, a: Announcement, host: string, n: nat)
    requires Proper(a) && '?' in path && NoOwnHash(path) && n <= |Request(path, a, host)|
    ensures Understand(Request(path, a, host)[..n]).None?
  {
    var head, own, query := path[..IndexOf(path, '?')], OwnQuery(path), QueryText(Params(a));
    AtMark(path);
    HashIsHidden(own, a);
    MarkMoves("GET ", head, own, query, Tail(host));
    NoPartTells("GET " + head, own + "?" + query, Tail(host), n);
  }

  /** A line break in the path ends the line before any query. */
  lemma {:induction false} BrokenPath(path: string, a: Announcement, host: string, n: nat)
    requires Proper(a) && '?' !in path && '\n' in path && n <= |Request(path, a, host)|
    ensures Understand(Request(path, a, host)[..n]).None?
  {
    var all, front := Request(path, a, host), "GET " + path;
    assert front <= all;
    if n <= |front| { assert all[..n] == front[..n]; } else { assert all[..n][..|front|] == front; }
    BrokenLine(all[..n], path);
  }

  lemma {:induction false} BrokenLine(s: string, path: string)
    requires '?' !in path && '\n' in path && (s <= "GET " + path || "GET " + path <= s)
    ensures Understand(s).None?
  {
    var line := FirstLine(s);
    FirstLineIsPrefix(s);
    IndexIsFirst(s, '\n');
    if "GET " + path <= s { NewlineInside(s, path); }
    assert line <= "GET " + path;
    NoQuery(line);
  }

  lemma {:induction false} NewlineInside(s: string, path: string)
    requires "GET " + path <= s && '\n' in path
    ensures IndexOf(s, '\n') < |"GET " + path|
  {
    IndexIsFirst(s, '\n');
    var i :| 0 <= i < |path| && path[i] == '\n';
    assert s[4 + i] == ("GET " + path)[4 + i] == '\n';
  }

  lemma {:induction false} PlainUnderstoodExactly(path: string, a: Announcement, host: string, n: nat)
    requires Proper(a) && '?' !in path && '\n' !in path && n <= |Request(path, a, host)|
    ensures Understand(Request(path, a, host)[..n]) == Some(Meant(a)) <==> n >= Enough(path, a)
  {
    var q, k := QueryText(Params(a)), n - |Head(path)|;
    QueryRead(path, a, host, n);
    EndsInside(Params(a), 0, if a.first then EVENT else LEFT);
    if k >= 0 { QueryUnderstoodExactly(a, if k < |q| then k else |q|); }
  }

  /** The tracker understands what the peer meant exactly when the path has no query
      of its own and no line break, and the part of the request that was read
      reaches far enough: past `left=0`, and past the whole query for a first
      announce. */
  lemma {:induction false} UnderstoodExactly(path: string, a: Announcement, host: string, n: nat)
    requires Proper(a) && NoOwnHash(path) && n <= |Request(path, a, host)|
    ensures Understand(Request(path, a, host)[..n]) == Some(Meant(a)) <==>
            '?' !in path && '\n' !in path && n >= Enough(path, a)
  {
    if '?' in path {
      OwnQueryHides(path, a, host, n);
    } else if '\n' in path {
      BrokenPath(path, a, host, n);
    } else {
      PlainUnderstoodExactly(path, a, host, n);
    }
  }

  /** A request whose `left`, or `event` of a first announce, ends beyond the
      tracker's 4096-byte buffer is never understood. */
  lemma {:induction false} LongRequestIsLost(path: string, a: Announcement, host: string, n: nat)
    requires Proper(a) && NoOwnHash(path) && n <= |Request(path, a, host)|
    requires n <= 4096 < Enough(path, a)
    ensures Understand(Request(path, a, host)[..n]) != Some(Meant(a))
  {
    UnderstoodExactly(path, a, host, n);
  }

  // ── The loops ────────────────────────────────────────────────────────────

  lemma {:induction false} EncodedAppend(bytes: string, c: char)
    requires AllBytes(bytes) && IsByte(c)
    ensures PercentEncoded(bytes + [c]) == PercentEncoded(bytes) + EncodeByte(c)
  {
    if bytes == "" {
      assert (bytes + [c])[1..] == "";
    } else {
      EncodedAppend(bytes[1..], c);
      assert (bytes + [c])[1..] == bytes[1..] + [c];
      Regroup(EncodeByte(bytes[0]), PercentEncoded(bytes[1..]), EncodeByte(c), "");
    }
  }

  method PercentEncode(bytes: string) returns (out: string)
    requires AllBytes(bytes)
    ensures out == PercentEncoded(bytes)
  {
    out := "";
    for n := 0 to |bytes|
      invariant out == PercentEncoded(bytes[..n])
    {
      EncodedAppend(bytes[..n], bytes[n]);
      assert bytes[..n + 1] == bytes[..n] + [bytes[n]];
      out := out + EncodeByte(bytes[n]);
    }
    assert bytes[..|bytes|] == bytes;
  }

  method PercentDecode(input: string) returns (out: string)
    ensures out == PercentDecoded(input)
  {
    out := "";
    var i := 0;
    assert input[0..] == input;
    while i < |input|
      invariant i <= |input|
      invariant PercentDecoded(input) == out + PercentDecoded(input[i..])
    {
      var s := input[i..];
      if s[0] == '%' && i + 2 < |input| {
        var v := FromHex(input[i + 1], input[i + 2]);
        if v.Some? {
          assert s[3..] == input[i + 3..];
          Regroup(out, [v.value], PercentDecoded(input[i + 3..]), "");
          out := out + [v.value];
          i := i + 3;
          continue;
        }
      }
      assert s[1..] == input[i + 1..];
      Regroup(out, [s[0]], PercentDecoded(input[i + 1..]), "");
      out := out + [input[i]];
      i := i + 1;
    }
  }

  method FindParam(query: string, key: string) returns (r: Option<string>)
    ensures r == QueryParam(query, key)
  {
    var rest := query;
    while true
      invariant QueryParam(query, key) == QueryParam(rest, key)
      decreases |rest|
    {
      var end := IndexOf(rest, '&');
      var pair := rest[..end];
      var eq := IndexOf(pair, '=');
      if pair[..eq] == key { return Some(if eq < |pair| then pair[eq + 1..] else ""); }
      if end == |rest| { return None; }
      rest := rest[end + 1..];
    }
  }

  /** The pairs read so far, in front of the others. */
  ghost function OntoPairs(out: string, others: Option<string>): Option<string> {
    if others.None? then None else Some(out + others.value)
  }

  method DecodeInfoHash(value: string) returns (r: Option<string>)
    ensures r == InfoHash(value)
  {
    var raw := PercentDecode(value);
    if |raw| == 20 { return Some(raw); }
    if !IsUtf8(raw) || |raw| != 40 { return None; }
    var out := "";
    assert raw[0..] == raw;
    assert HexPairs(raw).Some? ==> "" + HexPairs(raw).value == HexPairs(raw).value;
    for i := 0 to 20
      invariant HexPairs(raw) == OntoPairs(out, HexPairs(raw[i * 2..]))
    {
      var s := raw[i * 2..];
      assert s[0] == raw[i * 2] && s[1] == raw[i * 2 + 1] && s[2..] == raw[(i + 1) * 2..];
      var b := FromHex(raw[i * 2], raw[i * 2 + 1]);
      if b.None? { return None; }
      if HexPairs(s[2..]).Some? { Regroup(out, [b.value], HexPairs(s[2..]).value, ""); }
      out := out + [b.value];
    }
    assert out + "" == out;
    return Some(out);
  }
}
