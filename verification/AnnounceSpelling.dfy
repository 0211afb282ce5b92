/** Announces of other clients: what the tracker makes of any query, told from its
    pairs, and of any percent encoding. */
module AnnounceSpelling {
  import opened Text
  import opened Announce

  // ── Percent encoding ─────────────────────────────────────────────────────

  /** A character as it is, or one written as '%' and two digits. */
  datatype Piece = Literal(c: char) | Escaped(a: char, b: char)

  function PieceText(p: Piece): string { if p.Literal? then [p.c] else ['%', p.a, p.b] }

  function PiecesText(pieces: seq<Piece>): string {
    if pieces == [] then "" else PieceText(pieces[0]) + PiecesText(pieces[1..])
  }

  /** Escapes have a value, and a '%' by itself does not start one. */
  ghost predicate Proper(pieces: seq<Piece>) {
    pieces == [] ||
    (&& Proper(pieces[1..])
     && match pieces[0]
        case Escaped(a, b) => FromHex(a, b).Some?
        case Literal(c) =>
          var t := PiecesText(pieces[1..]);
          !(c == '%' && |t| > 1 && FromHex(t[0], t[1]).Some?))
  }

  function PieceValue(p: Piece): char {
    if p.Literal? then p.c else if FromHex(p.a, p.b).Some? then FromHex(p.a, p.b).value else '%'
  }

  /** Every piece becomes one byte; what is no escape stays as it is. */
  lemma {:induction false} DecodedByPieces(pieces: seq<Piece>)
    requires Proper(pieces)
    ensures var r := PercentDecoded(PiecesText(pieces));
            |r| == |pieces| && forall i :: 0 <= i < |pieces| ==> r[i] == PieceValue(pieces[i])
  {
    if pieces != [] {
      var s, t := PiecesText(pieces), PiecesText(pieces[1..]);
      DecodedByPieces(pieces[1..]);
      if pieces[0].Literal? {
        assert s == [pieces[0].c] + t && s[1..] == t;
        assert |s| > 2 ==> s[1] == t[0] && s[2] == t[1];
      } else {
        assert s[0] == '%' && s[1] == pieces[0].a && s[2] == pieces[0].b && s[3..] == t;
      }
    }
  }

  // ── Hashes ───────────────────────────────────────────────────────────────

  /** `h` is what the digits of `s`, taken in pairs, spell. */
  ghost predicate SpellsBytes(s: string, h: string) {
    |s| == 2 * |h| && forall i :: 0 <= i < |h| ==> FromHex(s[2 * i], s[2 * i + 1]) == Some(h[i])
  }

  lemma {:induction false} PairsExactly(s: string, h: string)
    requires |s| % 2 == 0
    ensures HexPairs(s) == Some(h) <==> SpellsBytes(s, h)
  {
    if s != "" {
      if h != "" {
        PairsExactly(s[2..], h[1..]);
        SpellsFirst(s, h);
        assert h == [h[0]] + h[1..];
      }
    }
  }

  lemma {:induction false} SpellsFirst(s: string, h: string)
    requires |s| >= 2 && h != ""
    ensures SpellsBytes(s, h) <==> FromHex(s[0], s[1]) == Some(h[0]) && SpellsBytes(s[2..], h[1..])
  {
    if SpellsBytes(s, h) {
      forall i | 0 <= i < |h[1..]| ensures FromHex(s[2..][2 * i], s[2..][2 * i + 1]) == Some(h[1..][i]) {
        assert FromHex(s[2 * (i + 1)], s[2 * (i + 1) + 1]) == Some(h[i + 1]);
      }
    }
    if FromHex(s[0], s[1]) == Some(h[0]) && SpellsBytes(s[2..], h[1..]) {
      forall i | 0 <= i < |h| ensures FromHex(s[2 * i], s[2 * i + 1]) == Some(h[i]) {
        if i > 0 { assert FromHex(s[2..][2 * (i - 1)], s[2..][2 * (i - 1) + 1]) == Some(h[1..][i - 1]); }
      }
    }
  }

  /** A hash is understood exactly when it is decoded to its 20 bytes or to the 40
      digits of them. */
  lemma {:induction false} HashExactly(value: string, hash: string)
    ensures InfoHash(value) == Some(hash) <==>
            var raw := PercentDecoded(value);
            |hash| == 20 && (raw == hash || (|raw| == 40 && IsUtf8(raw) && SpellsBytes(raw, hash)))
  {
    var raw := PercentDecoded(value);
    if |raw| == 40 { PairsExactly(raw, hash); }
  }

  // ── Queries ──────────────────────────────────────────────────────────────

  function Joined(pairs: seq<string>): string
    requires pairs != []
  {
    if |pairs| == 1 then pairs[0] else pairs[0] + "&" + Joined(pairs[1..])
  }

  predicate ArePairs(pairs: seq<string>) { pairs != [] && forall i :: 0 <= i < |pairs| ==> '&' !in pairs[i] }

  /** Every query is its pairs. */
  lemma {:induction false} EveryQueryIsPairs(q: string) returns (pairs: seq<string>)
    ensures ArePairs(pairs) && Joined(pairs) == q
    decreases |q|
  {
    if '&' !in q {
      pairs := [q];
    } else {
      var pair, rest := SplitAtAmp(q);
      var others := EveryQueryIsPairs(rest);
      pairs := [pair] + others;
      assert pairs[1..] == others;
    }
  }

  /** A pair: a key and what follows its '=', or nothing. */
  ghost predicate IsPair(pair: string, key: string, value: string) {
    '=' !in key && (pair == key + "=" + value || (pair == key && value == ""))
  }

  ghost predicate FirstAt(pairs: seq<string>, key: string, n: int) {
    0 <= n < |pairs| && PairKey(pairs[n]) == key && forall i :: 0 <= i < n ==> PairKey(pairs[i]) != key
  }

  lemma {:induction false} PairIs(pair: string)
    ensures IsPair(pair, PairKey(pair), PairValue(pair))
  {
    IndexIsFirst(pair, '=');
  }

  /** The value of a key is that of the first pair that has it. */
  lemma {:induction false} ParamExactly(pairs: seq<string>, key: string, value: string)
    requires ArePairs(pairs)
    ensures QueryParam(Joined(pairs), key) == Some(value) <==>
            exists n :: FirstAt(pairs, key, n) && IsPair(pairs[n], key, value)
    decreases |pairs|
  {
    var n := FirstWith(pairs, key);
    if 0 <= n {
      PairIs(pairs[n]);
      forall m | FirstAt(pairs, key, m) ensures m == n { }
      OneValue(pairs[n], key, PairValue(pairs[n]), value);
    }
  }

  lemma {:induction false} OneValue(pair: string, key: string, v: string, w: string)
    requires IsPair(pair, key, v)
    ensures IsPair(pair, key, w) <==> v == w
  {
    if IsPair(pair, key, w) {
      if pair == key {
        assert |key + "=" + v| > |key| && |key + "=" + w| > |key|;
      } else {
        assert v == pair[|key| + 1..] && w == pair[|key| + 1..];
      }
    }
  }

  lemma {:induction false} FirstWith(pairs: seq<string>, key: string) returns (n: int)
    requires ArePairs(pairs)
    ensures if n < 0 then QueryParam(Joined(pairs), key).None? && forall i :: 0 <= i < |pairs| ==> PairKey(pairs[i]) != key
            else FirstAt(pairs, key, n) && QueryParam(Joined(pairs), key) == Some(PairValue(pairs[n]))
    decreases |pairs|
  {
    if PairKey(pairs[0]) == key { n := 0; } else { n := -1; }
    if |pairs| == 1 {
      LastPair(pairs[0], key);
    } else {
      AnyPair(pairs[0], Joined(pairs[1..]), key);
      if n < 0 {
        var m := FirstWith(pairs[1..], key);
        n := if m < 0 then -1 else m + 1;
        assert forall i :: 1 <= i < |pairs| ==> pairs[i] == pairs[1..][i - 1];
      }
    }
  }

  /** `v` is the value of the key, if it has one. */
  ghost predicate Gives(pairs: seq<string>, key: string, v: Option<string>) {
    if v.Some? then exists n :: FirstAt(pairs, key, n) && IsPair(pairs[n], key, v.value)
    else forall i :: 0 <= i < |pairs| ==> PairKey(pairs[i]) != key
  }

  lemma {:induction false} GivesExactly(pairs: seq<string>, key: string)
    requires ArePairs(pairs)
    ensures Gives(pairs, key, QueryParam(Joined(pairs), key))
  {
    var n := FirstWith(pairs, key);
    if 0 <= n { PairIs(pairs[n]); }
  }

  /** Any announce: it is understood exactly when its hash and its port are; a `left`
      that is missing or no number counts as the largest, a missing event as none. */
  lemma {:induction false} AnyAnnounce(pairs: seq<string>) returns (hash: Option<string>, port: Option<string>, left: Option<string>, event: Option<string>)
    requires ArePairs(pairs)
    ensures Gives(pairs, "info_hash", hash) && Gives(pairs, "port", port) && Gives(pairs, "left", left) && Gives(pairs, "event", event)
    ensures var r := UnderstandQuery(Joined(pairs));
            && (r.Some? <==> hash.Some? && InfoHash(hash.value).Some? && port.Some? && ParseUnsigned(port.value, 0x1_0000).Some?)
            && (r.Some? ==>
                  && Some(r.value.infoHash) == InfoHash(hash.value) && Some(r.value.port) == ParseUnsigned(port.value, 0x1_0000)
                  && (if left.Some? && ParseUnsigned(left.value, U64).Some? then Some(r.value.left) == ParseUnsigned(left.value, U64)
                      else r.value.left == U64 - 1)
                  && r.value.event == if event.Some? then event.value else "")
  {
    var q := Joined(pairs);
    hash, port, left, event := QueryParam(q, "info_hash"), QueryParam(q, "port"), QueryParam(q, "left"), QueryParam(q, "event");
    GivesExactly(pairs, "info_hash");
    GivesExactly(pairs, "port");
    GivesExactly(pairs, "left");
    GivesExactly(pairs, "event");
  }
}
