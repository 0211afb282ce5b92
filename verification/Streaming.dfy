/** Hashing a payload piece by piece while copying it to the seed tree. */
module Streaming {
  import opened Text
  import opened TorrentFile

  // ── The piece list of a payload ──────────────────────────────────────────

  /** The digests of a payload's pieces, in order. */
  function PieceHashes(sha: string -> string, data: string): string {
    if data == "" then ""
    else if |data| <= PIECE_LEN then sha(data)
    else sha(data[..PIECE_LEN]) + PieceHashes(sha, data[PIECE_LEN..])
  }

  function Pieces(len: nat): nat { (len + PIECE_LEN - 1) / PIECE_LEN }

  /** The bytes of piece `i`. */
  function Piece(data: string, i: nat): string
    requires i < Pieces(|data|)
  {
    data[i * PIECE_LEN..if (i + 1) * PIECE_LEN < |data| then (i + 1) * PIECE_LEN else |data|]
  }

  lemma {:induction false} DropSlice(data: string, n: nat, a: nat, b: nat)
    requires n <= |data| && a <= b <= |data| - n
    ensures data[n..][a..b] == data[n + a..n + b]
  {
  }

  lemma {:induction false} PieceOfRest(data: string, i: nat)
    requires |data| > PIECE_LEN && 0 < i < Pieces(|data|)
    ensures i - 1 < Pieces(|data[PIECE_LEN..]|) && Piece(data, i) == Piece(data[PIECE_LEN..], i - 1)
  {
    var lo := i * PIECE_LEN;
    var hi := if lo + PIECE_LEN < |data| then lo + PIECE_LEN else |data|;
    assert PIECE_LEN <= lo <= hi;
    DropSlice(data, PIECE_LEN, lo - PIECE_LEN, hi - PIECE_LEN);
  }

  /** One 20-byte digest for every piece, at its place. */
  lemma {:induction false} DigestAt(sha: string -> string, data: string, i: nat)
    requires (forall s :: |sha(s)| == 20) && i < Pieces(|data|)
    ensures |PieceHashes(sha, data)| == 20 * Pieces(|data|)
    ensures PieceHashes(sha, data)[20 * i..20 * (i + 1)] == sha(Piece(data, i))
  {
    if |data| <= PIECE_LEN {
      assert Pieces(|data|) == 1 && i == 0;
      assert Piece(data, 0) == data;
    } else {
      var rest, hashes := data[PIECE_LEN..], PieceHashes(sha, data[PIECE_LEN..]);
      assert Pieces(|data|) == 1 + Pieces(|rest|);
      if i == 0 {
        DigestAt(sha, rest, 0);
        assert Piece(data, 0) == data[..PIECE_LEN];
      } else {
        DigestAt(sha, rest, i - 1);
        PieceOfRest(data, i);
        assert PieceHashes(sha, data)[20 * i..20 * (i + 1)] == hashes[20 * (i - 1)..20 * i];
      }
    }
  }

  lemma {:induction false} NextPiece(sha: string -> string, pending: string, rest: string)
    requires |pending| >= PIECE_LEN
    ensures PieceHashes(sha, pending + rest) == sha(pending[..PIECE_LEN]) + PieceHashes(sha, pending[PIECE_LEN..] + rest)
  {
    var all := pending + rest;
    assert all[..PIECE_LEN] == pending[..PIECE_LEN] && all[PIECE_LEN..] == pending[PIECE_LEN..] + rest;
    if |all| == PIECE_LEN { assert all[..PIECE_LEN] == all; }
  }

  function Concat(files: seq<string>): string {
    if files == [] then "" else files[0] + Concat(files[1..])
  }

  // ── Many files ───────────────────────────────────────────────────────────

  /** Drains every complete piece. */
  method Drain(sha: string -> string, pieces: string, pending: string, ghost rest: string)
    returns (pieces': string, pending': string)
    ensures |pending'| < PIECE_LEN
    ensures pieces' + PieceHashes(sha, pending' + rest) == pieces + PieceHashes(sha, pending + rest)
    ensures |pending'| <= |pending|
  {
    pieces', pending' := pieces, pending;
    while |pending'| >= PIECE_LEN
      invariant pieces' + PieceHashes(sha, pending' + rest) == pieces + PieceHashes(sha, pending + rest)
      invariant |pending'| <= |pending|
    {
      NextPiece(sha, pending', rest);
      var digest := sha(pending'[..PIECE_LEN]);
      Regroup(pieces', digest, PieceHashes(sha, pending'[PIECE_LEN..] + rest), "");
      pieces', pending' := pieces' + digest, pending'[PIECE_LEN..];
    }
  }

  /** Copies one file in reads of any size while hashing; `rest` is what later
      files hold. */
  method HashAndSeedFile(sha: string -> string, input: string, pieces: string, pending: string, total: nat, ghost rest: string)
    returns (output: string, pieces': string, pending': string, total': nat)
    requires |pending| < PIECE_LEN
    ensures output == input && total' == total + |input| && |pending'| < PIECE_LEN
    ensures pieces' + PieceHashes(sha, pending' + rest) == pieces + PieceHashes(sha, pending + (input + rest))
  {
    output, pieces', pending', total' := "", pieces, pending, total;
    var at := 0;
    assert input[0..] == input;
    while at < |input|
      invariant at <= |input| && output == input[..at] && total' == total + at && |pending'| < PIECE_LEN
      invariant pieces' + PieceHashes(sha, pending' + (input[at..] + rest)) == pieces + PieceHashes(sha, pending + (input + rest))
    {
      var n: nat :| 0 < n <= PIECE_LEN && at + n <= |input|;
      var buf := input[at..at + n];
      ghost var left := input[at + n..] + rest;
      assert input[at..] == buf + input[at + n..];
      assert pending' + (input[at..] + rest) == (pending' + buf) + left;
      total' := total' + n;
      output := output + buf;
      pieces', pending' := Drain(sha, pieces', pending' + buf, left);
      at := at + n;
    }
    assert input[|input|..] + rest == rest;
  }

  /** Every file is copied as it is, and the digests are those of the files'
      concatenation, pieces spanning file boundaries included. */
  method HashAndSeedFiles(sha: string -> string, files: seq<string>) returns (pieces: string, total: nat, seeded: seq<string>)
    ensures seeded == files && total == |Concat(files)|
    ensures pieces == PieceHashes(sha, Concat(files))
  {
    pieces, total, seeded := "", 0, [];
    var pending := "";
    assert files[0..] == files && "" + Concat(files) == Concat(files);
    for i := 0 to |files|
      invariant seeded == files[..i] && |pending| < PIECE_LEN
      invariant total + |Concat(files[i..])| == |Concat(files)|
      invariant pieces + PieceHashes(sha, pending + Concat(files[i..])) == PieceHashes(sha, Concat(files))
    {
      assert files[i..][0] == files[i] && files[i..][1..] == files[i + 1..];
      var output;
      output, pieces, pending, total := HashAndSeedFile(sha, files[i], pieces, pending, total, Concat(files[i + 1..]));
      seeded := seeded + [output];
    }
    assert pending + Concat(files[|files|..]) == pending;
    if pending != "" { pieces := pieces + sha(pending); }
  }

  // ── One sparse file ──────────────────────────────────────────────────────

  /** An output file: writing past its end leaves a hole that reads as zeros. */
  class SparseFile {
    var content: string
    var pos: nat

    constructor ()
      ensures content == "" && pos == 0
    {
      content, pos := "", 0;
    }

    /** What the file reads like up to its write position. */
    ghost function Logical(): string
      reads this
      requires |content| <= pos
    {
      content + Zeros(pos - |content|)
    }

    method WriteAll(data: string)
      requires |content| <= pos && data != ""
      modifies this
      ensures content == old(Logical()) + data && pos == old(pos) + |data|
    {
      content := content + Zeros(pos - |content|) + data;
      pos := pos + |data|;
    }

    method Skip(n: nat)
      requires |content| <= pos
      modifies `pos
      ensures pos == old(pos) + n && Logical() == old(Logical()) + Zeros(n)
    {
      assert content + Zeros(pos + n - |content|) == content + Zeros(pos - |content|) + Zeros(n);
      pos := pos + n;
    }

    method SetLen(n: nat)
      modifies `content
      ensures content == if n <= old(|content|) then old(content)[..n] else old(content) + Zeros(n - old(|content|))
    {
      content := if n <= |content| then content[..n] else content + Zeros(n - |content|);
    }
  }

  /** Fills the piece buffer from the payload, in reads of any size. */
  method FillBuffer(payload: string, at: nat) returns (chunk: string)
    requires at <= |payload|
    ensures chunk == payload[at..if at + PIECE_LEN < |payload| then at + PIECE_LEN else |payload|]
  {
    chunk := "";
    while |chunk| < PIECE_LEN && at + |chunk| < |payload|
      invariant |chunk| <= PIECE_LEN && at + |chunk| <= |payload| && chunk == payload[at..at + |chunk|]
      decreases |payload| - |chunk|
    {
      var n: nat :| 0 < n && |chunk| + n <= PIECE_LEN && at + |chunk| + n <= |payload|;
      chunk := chunk + payload[at + |chunk|..at + |chunk| + n];
    }
  }

  /** Skipping all-zero pieces and pinning the length gives the same file and the
      same digests as writing everything. */
  method HashAndSeed(sha: string -> string, payload: string) returns (pieces: string, total: nat, output: SparseFile)
    ensures fresh(output) && output.content == payload
    ensures pieces == PieceHashes(sha, payload) && total == |payload|
  {
    output := new SparseFile();
    pieces, total := "", 0;
    var zeroPieceDigest: seq<string> := [];
    assert payload[0..] == payload && payload[..0] == "";
    while true
      invariant fresh(output) && total <= |payload|
      invariant |output.content| <= output.pos == total && output.Logical() == payload[..total]
      invariant pieces + PieceHashes(sha, payload[total..]) == PieceHashes(sha, payload)
      invariant zeroPieceDigest == [] || zeroPieceDigest == [sha(Zeros(PIECE_LEN))]
      decreases |payload| - total
    {
      var chunk := FillBuffer(payload, total);
      if chunk == "" { break; }
      ChunkDone(sha, payload, total, chunk, pieces);
      if |chunk| == PIECE_LEN && chunk == Zeros(PIECE_LEN) {
        if zeroPieceDigest == [] { zeroPieceDigest := [sha(chunk)]; }
        pieces := pieces + zeroPieceDigest[0];
        output.Skip(|chunk|);
      } else {
        pieces := pieces + sha(chunk);
        output.WriteAll(chunk);
        assert output.content + Zeros(0) == output.content;
      }
      total := total + |chunk|;
    }
    assert payload[..total] == payload && payload[total..] == "";
    output.SetLen(total);
  }

  lemma {:induction false} ChunkDone(sha: string -> string, payload: string, total: nat, chunk: string, pieces: string)
    requires total < |payload| && chunk == payload[total..if total + PIECE_LEN < |payload| then total + PIECE_LEN else |payload|]
    ensures payload[..total + |chunk|] == payload[..total] + chunk
    ensures pieces + PieceHashes(sha, payload[total..]) == pieces + sha(chunk) + PieceHashes(sha, payload[total + |chunk|..])
  {
    var next := total + |chunk|;
    FirstChunk(sha, payload[total..], chunk);
    assert payload[total..][|chunk|..] == payload[next..];
    Regroup(pieces, sha(chunk), PieceHashes(sha, payload[next..]), "");
  }

  lemma {:induction false} FirstChunk(sha: string -> string, data: string, chunk: string)
    requires chunk != "" && chunk == data[..if PIECE_LEN < |data| then PIECE_LEN else |data|]
    ensures PieceHashes(sha, data) == sha(chunk) + PieceHashes(sha, data[|chunk|..])
  {
    if |data| <= PIECE_LEN { assert chunk == data && data[|data|..] == ""; }
  }
}
