/** The multi-file torrent writer and the daemon's extraction of its file list. */
module TorrentFile {
  import opened Text
  import opened Bencoding

  const PIECE_LEN: nat := 262_144

  // ── Extraction ───────────────────────────────────────────────────────────

  datatype PendingFile = PendingFile(path: string, size: nat)

  /** First entry with this key. */
  function FindKey(entries: seq<Entry>, key: string): Option<Bencode> {
    if entries == [] then None
    else if entries[0].key == key then Some(entries[0].value)
    else FindKey(entries[1..], key)
  }

  function Get(v: Bencode, key: string): Option<Bencode> {
    if v.Dict? then FindKey(v.entries, key) else None
  }

  function AsStr(v: Bencode): Option<string> {
    if v.Str? && IsUtf8(v.bytes) then Some(v.bytes) else None
  }

  function GetStr(v: Bencode, key: string): Option<string> {
    var r := Get(v, key); if r.Some? then AsStr(r.value) else None
  }

  function GetInt(v: Bencode, key: string): Option<nat> {
    var r := Get(v, key); if r.Some? && r.value.Int? then Some(r.value.n) else None
  }

  function GetList(v: Bencode, key: string): Option<seq<Bencode>> {
    var r := Get(v, key); if r.Some? && r.value.List? then Some(r.value.items) else None
  }

  function PartsOf(items: seq<Bencode>): Option<seq<string>> {
    if items == [] then Some([])
    else
      var first, others := AsStr(items[0]), PartsOf(items[1..]);
      if first.Some? && others.Some? then Some([first.value] + others.value) else None
  }

  function FileOf(v: Bencode): Option<PendingFile> {
    var length, path := GetInt(v, "length"), GetList(v, "path");
    if length.None? || path.None? then None
    else
      var parts := PartsOf(path.value);
      if parts.None? then None else Some(PendingFile(Join(parts.value), length.value))
  }

  function FilesOf(items: seq<Bencode>): Option<seq<PendingFile>> {
    if items == [] then Some([])
    else
      var first, others := FileOf(items[0]), FilesOf(items[1..]);
      if first.Some? && others.Some? then Some([first.value] + others.value) else None
  }

  function FileList(root: Bencode): Option<(string, seq<PendingFile>)> {
    var info := Get(root, "info");
    if info.None? then None
    else
      var name := GetStr(info.value, "name");
      if name.None? then None
      else
        var files := GetList(info.value, "files");
        if files.Some? then
          var r := FilesOf(files.value);
          if r.None? then None else Some((name.value, r.value))
        else
          var length := GetInt(info.value, "length");
          if length.None? then None else Some((name.value, [PendingFile(name.value, length.value)]))
  }

  function Extracted(data: string): Option<(string, seq<PendingFile>)> {
    var root := ParseValue(data);
    if root.None? then None else FileList(root.value.value)
  }

  lemma {:induction false} Associates<T>(a: T, b: seq<T>, c: T)
    ensures [a] + (b + [c]) == [a] + b + [c]
  {
  }

  lemma {:induction false} PartsSoFar(done: seq<Bencode>, next: Bencode)
    ensures PartsOf(done + [next]) ==
            if PartsOf(done).Some? && AsStr(next).Some? then Some(PartsOf(done).value + [AsStr(next).value]) else None
  {
    if done == [] {
      assert (done + [next])[1..] == [];
      if AsStr(next).Some? { assert [AsStr(next).value] + [] == [] + [AsStr(next).value]; }
    } else {
      PartsSoFar(done[1..], next);
      assert (done + [next])[1..] == done[1..] + [next];
      if AsStr(done[0]).Some? && PartsOf(done[1..]).Some? && AsStr(next).Some? {
        Associates(AsStr(done[0]).value, PartsOf(done[1..]).value, AsStr(next).value);
      }
    }
  }

  lemma {:induction false} PartsFail(items: seq<Bencode>, n: nat)
    requires n <= |items| && PartsOf(items[..n]).None?
    ensures PartsOf(items).None?
  {
    assert n > 0;
    assert items[..n][0] == items[0] && items[..n][1..] == items[1..][..n - 1];
    if AsStr(items[0]).Some? { PartsFail(items[1..], n - 1); }
  }

  lemma {:induction false} FilesSoFar(done: seq<Bencode>, next: Bencode)
    ensures FilesOf(done + [next]) ==
            if FilesOf(done).Some? && FileOf(next).Some? then Some(FilesOf(done).value + [FileOf(next).value]) else None
  {
    if done == [] {
      assert (done + [next])[1..] == [];
      if FileOf(next).Some? { assert [FileOf(next).value] + [] == [] + [FileOf(next).value]; }
    } else {
      FilesSoFar(done[1..], next);
      assert (done + [next])[1..] == done[1..] + [next];
      if FileOf(done[0]).Some? && FilesOf(done[1..]).Some? && FileOf(next).Some? {
        Associates(FileOf(done[0]).value, FilesOf(done[1..]).value, FileOf(next).value);
      }
    }
  }

  lemma {:induction false} FilesFail(items: seq<Bencode>, n: nat)
    requires n <= |items| && FilesOf(items[..n]).None?
    ensures FilesOf(items).None?
  {
    assert n > 0;
    assert items[..n][0] == items[0] && items[..n][1..] == items[1..][..n - 1];
    if FileOf(items[0]).Some? { FilesFail(items[1..], n - 1); }
  }

  method ExtractFile(entry: Bencode) returns (r: Option<PendingFile>)
    ensures r == FileOf(entry)
  {
    var length := GetInt(entry, "length");
    if length.None? { return None; }
    var pathList := GetList(entry, "path");
    if pathList.None? { return None; }
    var parts: seq<string> := [];
    var items := pathList.value;
    for n := 0 to |items|
      invariant PartsOf(items[..n]) == Some(parts)
    {
      assert items[..n + 1] == items[..n] + [items[n]];
      PartsSoFar(items[..n], items[n]);
      var part := AsStr(items[n]);
      if part.None? {
        PartsFail(items, n + 1);
        return None;
      }
      parts := parts + [part.value];
    }
    assert items[..|items|] == items;
    return Some(PendingFile(Join(parts), length.value));
  }

  method ExtractBencodeFiles(data: string) returns (r: Option<(string, seq<PendingFile>)>)
    ensures r == Extracted(data)
  {
    var root := ReadValue(data);
    if root.None? { return None; }
    var info := Get(root.value.0, "info");
    if info.None? { return None; }
    var name := GetStr(info.value, "name");
    if name.None? { return None; }
    var list := GetList(info.value, "files");
    if list.None? {
      var length := GetInt(info.value, "length");
      return if length.None? then None else Some((name.value, [PendingFile(name.value, length.value)]));
    }
    var result: seq<PendingFile> := [];
    var items := list.value;
    for n := 0 to |items|
      invariant FilesOf(items[..n]) == Some(result)
    {
      assert items[..n + 1] == items[..n] + [items[n]];
      FilesSoFar(items[..n], items[n]);
      var file := ExtractFile(items[n]);
      if file.None? {
        FilesFail(items, n + 1);
        return None;
      }
      result := result + [file.value];
    }
    assert items[..|items|] == items;
    return Some((name.value, result));
  }

  // ── The writer ───────────────────────────────────────────────────────────

  /** A payload file: the components of its relative path and its `u64` size. */
  datatype SeedFile = SeedFile(components: seq<string>, size: nat)

  /** Rust's `as i64` on a `u64`. */
  function AsI64(n: nat): int { if n < I64 then n else n - U64 }

  function BencodeInt(i: int): string { "i" + ToDecInt(i) + "e" }

  function ConcatMap<T>(f: T -> string, xs: seq<T>): string {
    if xs == [] then "" else f(xs[0]) + ConcatMap(f, xs[1..])
  }

  lemma {:induction false} ConcatMapAppend<T>(f: T -> string, xs: seq<T>, x: T)
    ensures ConcatMap(f, xs + [x]) == ConcatMap(f, xs) + f(x)
  {
    if xs != [] {
      ConcatMapAppend(f, xs[1..], x);
      assert (xs + [x])[1..] == xs[1..] + [x];
    }
  }

  function FileText(f: SeedFile): string {
    "d" + "6:length" + BencodeInt(AsI64(f.size)) + "4:pathl" + ConcatMap(EncodeStr, f.components) + "e" + "e"
  }

  function HeadText(announce: string): string { "d" + "8:announce" + EncodeStr(announce) + "4:infod" + "5:filesl" }

  function TailText(name: string, pieces: string): string {
    "e" + "4:name" + EncodeStr(name) + "12:piece length" + BencodeInt(PIECE_LEN) + "6:pieces" + EncodeStr(pieces) + "ee"
  }

  function TorrentText(announce: string, name: string, files: seq<SeedFile>, pieces: string): string {
    HeadText(announce) + ConcatMap(FileText, files) + TailText(name, pieces)
  }

  method AppendComponents(head: string, components: seq<string>) returns (d: string)
    ensures d == head + ConcatMap(EncodeStr, components)
  {
    d := head;
    for n := 0 to |components|
      invariant d == head + ConcatMap(EncodeStr, components[..n])
    {
      ConcatMapAppend(EncodeStr, components[..n], components[n]);
      assert components[..n + 1] == components[..n] + [components[n]];
      Regroup(head, ConcatMap(EncodeStr, components[..n]), EncodeStr(components[n]), "");
      d := d + EncodeStr(components[n]);
    }
    assert components[..|components|] == components;
  }

  method BencodeFile(f: SeedFile) returns (d: string)
    ensures d == FileText(f)
  {
    d := "d" + "6:length" + BencodeInt(AsI64(f.size)) + "4:pathl";
    d := AppendComponents(d, f.components);
    d := d + "e" + "e";
  }

  method AppendFiles(head: string, files: seq<SeedFile>) returns (d: string)
    ensures d == head + ConcatMap(FileText, files)
  {
    d := head;
    for n := 0 to |files|
      invariant d == head + ConcatMap(FileText, files[..n])
    {
      ConcatMapAppend(FileText, files[..n], files[n]);
      assert files[..n + 1] == files[..n] + [files[n]];
      var f := BencodeFile(files[n]);
      Regroup(head, ConcatMap(FileText, files[..n]), f, "");
      d := d + f;
    }
    assert files[..|files|] == files;
  }

  method BencodeMultifileTorrent(announce: string, name: string, files: seq<SeedFile>, pieces: string) returns (d: string)
    ensures d == TorrentText(announce, name, files, pieces)
  {
    d := HeadText(announce);
    d := AppendFiles(d, files);
    d := d + TailText(name, pieces);
  }

  // ── What is written is what is extracted ─────────────────────────────────

  function ComponentValues(components: seq<string>): seq<Bencode> {
    if components == [] then [] else [Str(components[0])] + ComponentValues(components[1..])
  }

  function FileValue(f: SeedFile): Bencode {
    Dict([Entry("length", Int(f.size)), Entry("path", List(ComponentValues(f.components)))])
  }

  function FileValues(files: seq<SeedFile>): seq<Bencode> {
    if files == [] then [] else [FileValue(files[0])] + FileValues(files[1..])
  }

  function InfoValue(name: string, files: seq<SeedFile>, pieces: string): Bencode {
    Dict([Entry("files", List(FileValues(files))), Entry("name", Str(name)),
          Entry("piece length", Int(PIECE_LEN)), Entry("pieces", Str(pieces))])
  }

  function TorrentValue(announce: string, name: string, files: seq<SeedFile>, pieces: string): Bencode {
    Dict([Entry("announce", Str(announce)), Entry("info", InfoValue(name, files, pieces))])
  }

  lemma {:induction false} KeyTexts()
    ensures EncodeStr("length") == "6:length" && EncodeStr("path") == "4:path" && EncodeStr("announce") == "8:announce"
    ensures EncodeStr("info") == "4:info" && EncodeStr("files") == "5:files" && EncodeStr("name") == "4:name"
    ensures EncodeStr("piece length") == "12:piece length" && EncodeStr("pieces") == "6:pieces"
  {
    PieceKeyTexts();
    assert ToDec(4) == "4" && ToDec(5) == "5" && ToDec(6) == "6" && ToDec(8) == "8";
  }

  lemma {:induction false} PieceKeyTexts()
    ensures EncodeStr("piece length") == "12:piece length" && EncodeStr("pieces") == "6:pieces"
  {
    assert ToDec(6) == "6" && ToDec(12) == ToDec(1) + "2" && ToDec(1) == "1";
  }

  lemma {:induction false} ComponentsEncode(components: seq<string>)
    ensures EncodeItems(ComponentValues(components)) == ConcatMap(EncodeStr, components) + "e"
  {
    if components != [] {
      ComponentsEncode(components[1..]);
      assert ComponentValues(components)[1..] == ComponentValues(components[1..]);
    }
  }

  lemma {:induction false} TwoEntries(k1: string, v1: Bencode, k2: string, v2: Bencode)
    ensures Encode(Dict([Entry(k1, v1), Entry(k2, v2)])) ==
            "d" + EncodeStr(k1) + Encode(v1) + EncodeStr(k2) + Encode(v2) + "e"
  {
    var entries := [Entry(k1, v1), Entry(k2, v2)];
    assert entries[1..] == [Entry(k2, v2)] && entries[1..][1..] == [];
    assert EncodeEntries(entries[1..]) == EncodeStr(k2) + Encode(v2) + "e";
    assert EncodeEntries(entries) == EncodeStr(k1) + Encode(v1) + (EncodeStr(k2) + Encode(v2) + "e");
  }

  lemma {:induction false} FileEncodes(f: SeedFile)
    requires f.size < I64
    ensures FileText(f) == Encode(FileValue(f))
  {
    KeyTexts();
    ComponentsEncode(f.components);
    TwoEntries("length", Int(f.size), "path", List(ComponentValues(f.components)));
    FileRegroup(BencodeInt(f.size), ConcatMap(EncodeStr, f.components));
  }

  lemma {:induction false} FileRegroup(size: string, path: string)
    ensures "d" + "6:length" + size + "4:pathl" + path + "e" + "e" ==
            "d" + "6:length" + size + "4:path" + ("l" + (path + "e")) + "e"
  {
    assert "4:pathl" == "4:path" + "l";
  }

  // Where the pieces of a torrent end and begin again.

  function InfoTail(name: string, pieces: string): seq<Entry> {
    [Entry("name", Str(name)), Entry("piece length", Int(PIECE_LEN)), Entry("pieces", Str(pieces))]
  }

  lemma {:induction false} TailRegroup(name: string, len: string, pieces: string)
    ensures "e" + "4:name" + name + "12:piece length" + len + "6:pieces" + pieces + "ee" ==
            "e" + ("4:name" + name + ("12:piece length" + len + ("6:pieces" + pieces + "e"))) + "e"
  {
  }

  lemma {:induction false} InfoTailEncodes(name: string, pieces: string)
    ensures TailText(name, pieces) == "e" + EncodeEntries(InfoTail(name, pieces)) + "e"
  {
    KeyTexts();
    var t := InfoTail(name, pieces);
    assert t[1..][1..] == [Entry("pieces", Str(pieces))] && t[1..][1..][1..] == [];
    assert EncodeEntries(t[1..][1..]) == "6:pieces" + EncodeStr(pieces) + "e";
    assert EncodeEntries(t[1..]) == "12:piece length" + BencodeInt(PIECE_LEN) + EncodeEntries(t[1..][1..]);
    assert EncodeEntries(t) == "4:name" + EncodeStr(name) + EncodeEntries(t[1..]);
    TailRegroup(EncodeStr(name), BencodeInt(PIECE_LEN), EncodeStr(pieces));
  }

  ghost predicate Small(files: seq<SeedFile>) { forall f :: f in files ==> f.size < I64 }

  lemma {:induction false} FilesEncode(files: seq<SeedFile>)
    requires Small(files)
    ensures EncodeItems(FileValues(files)) == ConcatMap(FileText, files) + "e"
  {
    if files != [] {
      FileEncodes(files[0]);
      FilesEncode(files[1..]);
      assert FileValues(files)[1..] == FileValues(files[1..]);
      Regroup(FileText(files[0]), ConcatMap(FileText, files[1..]), "e", "");
    }
  }

  lemma {:induction false} FilesInside(files: string, tail: string)
    ensures "d" + "5:filesl" + files + "e" + tail == "d" + ("5:files" + ("l" + (files + "e")) + tail)
  {
  }

  lemma {:induction false} InfoEncodes(name: string, files: seq<SeedFile>, pieces: string)
    requires Small(files)
    ensures "d" + "5:filesl" + ConcatMap(FileText, files) + "e" + EncodeEntries(InfoTail(name, pieces)) ==
            Encode(InfoValue(name, files, pieces))
  {
    KeyTexts();
    FilesEncode(files);
    var entries := InfoValue(name, files, pieces).entries;
    assert entries[1..] == InfoTail(name, pieces);
    assert EncodeEntries(entries) == "5:files" + ("l" + EncodeItems(FileValues(files))) + EncodeEntries(entries[1..]);
    FilesInside(ConcatMap(FileText, files), EncodeEntries(InfoTail(name, pieces)));
  }

  lemma {:induction false} TorrentRegroup(announce: string, files: string, tail: string)
    ensures ("d" + "8:announce" + announce + "4:infod" + "5:filesl") + files + ("e" + tail + "e") ==
            "d" + "8:announce" + announce + "4:info" + ("d" + "5:filesl" + files + "e" + tail) + "e"
  {
    assert "4:info" + "d" == "4:infod";
  }

  lemma {:induction false} TorrentEncodes(announce: string, name: string, files: seq<SeedFile>, pieces: string)
    requires Small(files)
    ensures TorrentText(announce, name, files, pieces) == Encode(TorrentValue(announce, name, files, pieces))
  {
    KeyTexts();
    InfoTailEncodes(name, pieces);
    InfoEncodes(name, files, pieces);
    TwoEntries("announce", Str(announce), "info", InfoValue(name, files, pieces));
    TorrentRegroup(EncodeStr(announce), ConcatMap(FileText, files), EncodeEntries(InfoTail(name, pieces)));
  }

  // ── Sizes from 2^63 up spoil the torrent ─────────────────────────────────

  lemma {:induction false} NegativeFails(i: int, rest: string)
    requires i < 0
    ensures ParseValue(BencodeInt(i) + rest).None?
  {
    var s, num := BencodeInt(i) + rest, ToDecInt(i);
    assert num[1..] == ToDec(-i);
    DigitsOnly(ToDec(-i), 'e');
    assert num == ['-'] + num[1..];
    assert s[1..][..|num|] == num;
    IndexOfIs(s[1..], 'e', |num|);
    assert s[1..1 + |num|] == num;
    if AllDigits(num) { DigitsOnly(num, '-'); }
  }

  lemma {:induction false} EntryFails(len: string, key: string, body: string)
    requires ParseUnsigned(len, U64) == Some(|key|) && ParseValue(body).None?
    ensures ParseEntries(len + ":" + key + body).None?
  {
    ReadsStr(len, key, body);
  }

  lemma {:induction false} DictFails(body: string)
    requires ParseEntries(body).None?
    ensures ParseValue("d" + body).None?
  {
    assert ("d" + body)[1..] == body;
  }

  lemma {:induction false} FileTextParts(number: string, path: string, rest: string)
    ensures "d" + "6:length" + number + "4:pathl" + path + "e" + "e" + rest ==
            "d" + ("6" + ":" + "length" + (number + ("4:pathl" + path + "e" + "e" + rest)))
  {
    assert "6" + ":" + "length" == "6:length";
  }

  lemma {:induction false} BigFileFails(f: SeedFile, rest: string)
    requires I64 <= f.size < U64
    ensures ParseValue(FileText(f) + rest).None?
  {
    var path := ConcatMap(EncodeStr, f.components);
    var tail := "4:pathl" + path + "e" + "e" + rest;
    var number := BencodeInt(AsI64(f.size));
    NegativeFails(AsI64(f.size), tail);
    ParseDec(6, U64);
    assert ToDec(6) == "6";
    EntryFails("6", "length", number + tail);
    DictFails("6" + ":" + "length" + (number + tail));
    FileTextParts(number, path, rest);
  }

  lemma {:induction false} BigFilesFail(files: seq<SeedFile>, rest: string)
    requires !Small(files) && forall f :: f in files ==> f.size < U64 && FitsInMemory(f)
    ensures ParseItems(ConcatMap(FileText, files) + rest).None?
  {
    var f, tail := files[0], ConcatMap(FileText, files[1..]) + rest;
    Regroup(FileText(f), ConcatMap(FileText, files[1..]), rest, "");
    if f.size >= I64 {
      BigFileFails(f, tail);
      ItemsFail(FileText(f) + tail);
    } else {
      FileEncodes(f);
      FileFits(f);
      RoundTrip(FileValue(f), tail);
      forall g | g in files && g.size >= I64 ensures g in files[1..] {}
      BigFilesFail(files[1..], rest);
    }
  }

  lemma {:induction false} ItemsFail(s: string)
    requires s != "" && s[0] != 'e' && ParseValue(s).None?
    ensures ParseItems(s).None?
  {
  }

  /** Lengths in memory are `usize`s. */
  ghost predicate FitsInMemory(f: SeedFile) {
    forall c :: c in f.components ==> |c| < U64
  }

  lemma {:induction false} ComponentsFit(components: seq<string>)
    requires forall c :: c in components ==> |c| < U64
    ensures FitItems(ComponentValues(components))
  {
    if components != [] {
      ComponentsFit(components[1..]);
      assert ComponentValues(components)[1..] == ComponentValues(components[1..]);
    }
  }

  lemma {:induction false} FitFirst(key: string, value: Bencode, others: seq<Entry>)
    requires |key| < U64 && Fits(value) && FitEntries(others)
    ensures FitEntries([Entry(key, value)] + others)
  {
    assert ([Entry(key, value)] + others)[1..] == others;
  }

  lemma {:induction false} FileFits(f: SeedFile)
    requires f.size < U64 && FitsInMemory(f)
    ensures Fits(FileValue(f))
  {
    ComponentsFit(f.components);
    var path := List(ComponentValues(f.components));
    FitFirst("path", path, []);
    FitFirst("length", Int(f.size), [Entry("path", path)]);
  }

  lemma {:induction false} FilesFit(files: seq<SeedFile>)
    requires forall f :: f in files ==> f.size < U64 && FitsInMemory(f)
    ensures FitItems(FileValues(files))
  {
    if files != [] {
      FileFits(files[0]);
      FilesFit(files[1..]);
      assert FileValues(files)[1..] == FileValues(files[1..]);
    }
  }

  lemma {:induction false} TorrentFits(announce: string, name: string, files: seq<SeedFile>, pieces: string)
    requires |announce| < U64 && |name| < U64 && |pieces| < U64
    requires forall f :: f in files ==> f.size < U64 && FitsInMemory(f)
    ensures Fits(TorrentValue(announce, name, files, pieces))
  {
    FilesFit(files);
    var t, info := InfoTail(name, pieces), InfoValue(name, files, pieces);
    FitFirst("pieces", Str(pieces), []);
    FitFirst("piece length", Int(PIECE_LEN), [t[2]]);
    FitFirst("name", Str(name), [t[1], t[2]]);
    FitFirst("files", List(FileValues(files)), t);
    assert info.entries == [Entry("files", List(FileValues(files)))] + t;
    FitFirst("info", info, []);
    FitFirst("announce", Str(announce), [Entry("info", info)]);
  }

  /** The whole torrent is unreadable when one size is. */
  lemma {:induction false} BigTorrentFails(announce: string, name: string, files: seq<SeedFile>, pieces: string)
    requires |announce| < U64 && !Small(files) && forall f :: f in files ==> f.size < U64 && FitsInMemory(f)
    ensures ParseValue(TorrentText(announce, name, files, pieces)).None?
  {
    var text := ConcatMap(FileText, files);
    var tail := TailText(name, pieces);
    BigFilesFail(files, tail);
    ListFails(text + tail);
    ParseDec(5, U64);
    ParseDec(4, U64);
    ParseDec(8, U64);
    assert ToDec(5) == "5" && ToDec(4) == "4" && ToDec(8) == "8";
    EntryFails("5", "files", "l" + (text + tail));
    DictFails("5" + ":" + "files" + ("l" + (text + tail)));
    InsideInfo(announce, "d" + ("5" + ":" + "files" + ("l" + (text + tail))));
    TorrentParts(EncodeStr(announce), text, tail);
  }

  lemma {:induction false} ListFails(body: string)
    requires ParseItems(body).None?
    ensures ParseValue("l" + body).None?
  {
    assert ("l" + body)[1..] == body;
  }

  lemma {:induction false} InsideInfo(announce: string, info: string)
    requires |announce| < U64 && ParseValue(info).None?
    ensures ParseValue("d" + ("8" + ":" + "announce" + (EncodeStr(announce) + ("4" + ":" + "info" + info)))).None?
  {
    ParseDec(4, U64);
    ParseDec(8, U64);
    assert ToDec(4) == "4" && ToDec(8) == "8";
    var tail := "4" + ":" + "info" + info;
    EntryFails("4", "info", info);
    RoundTrip(Str(announce), tail);
    OneEntry("8", "announce", EncodeStr(announce), Str(announce), tail);
    DictFails("8" + ":" + "announce" + (EncodeStr(announce) + tail));
  }

  lemma {:induction false} TorrentParts(announce: string, files: string, tail: string)
    ensures ("d" + "8:announce" + announce + "4:infod" + "5:filesl") + files + tail ==
            "d" + ("8" + ":" + "announce" + (announce + ("4" + ":" + "info" + ("d" + ("5" + ":" + "files" + ("l" + (files + tail)))))))
  {
    assert "8" + ":" + "announce" == "8:announce" && "5" + ":" + "files" + "l" == "5:filesl" && "4" + ":" + "info" + "d" == "4:infod";
    Regroup("5" + ":" + "files", "l", files, tail);
    Regroup("4" + ":" + "info", "d", "5:filesl", files + tail);
  }

  // ── The round trip ───────────────────────────────────────────────────────

  ghost predicate Readable(f: SeedFile) { forall c :: c in f.components ==> IsUtf8(c) }

  ghost function Listed(files: seq<SeedFile>): seq<PendingFile> {
    if files == [] then [] else [PendingFile(Join(files[0].components), files[0].size)] + Listed(files[1..])
  }

  lemma {:induction false} PartsAre(components: seq<string>)
    ensures PartsOf(ComponentValues(components)) ==
            if forall c :: c in components ==> IsUtf8(c) then Some(components) else None
  {
    if components != [] {
      PartsAre(components[1..]);
      assert ComponentValues(components)[1..] == ComponentValues(components[1..]);
      assert components == [components[0]] + components[1..];
    }
  }

  lemma {:induction false} FileIs(f: SeedFile)
    ensures FileOf(FileValue(f)) == if Readable(f) then Some(PendingFile(Join(f.components), f.size)) else None
  {
    PartsAre(f.components);
    var entries := FileValue(f).entries;
    assert entries[1..][0] == entries[1];
    assert FindKey(entries, "length") == Some(Int(f.size));
    assert FindKey(entries[1..], "path") == Some(List(ComponentValues(f.components)));
    assert "length" != "path" by { assert "length"[0] == 'l' && "path"[0] == 'p'; }
  }

  lemma {:induction false} AllReadable(files: seq<SeedFile>)
    requires files != []
    ensures (forall f :: f in files ==> Readable(f)) <==> Readable(files[0]) && forall f :: f in files[1..] ==> Readable(f)
  {
    assert forall f :: f in files <==> f == files[0] || f in files[1..];
  }

  lemma {:induction false} FilesAre(files: seq<SeedFile>)
    ensures FilesOf(FileValues(files)) == if forall f :: f in files ==> Readable(f) then Some(Listed(files)) else None
  {
    if files != [] {
      FileIs(files[0]);
      FilesAre(files[1..]);
      assert FileValues(files)[1..] == FileValues(files[1..]);
      AllReadable(files);
    }
  }

  lemma {:induction false} TorrentIs(announce: string, name: string, files: seq<SeedFile>, pieces: string)
    requires IsUtf8(name)
    ensures FileList(TorrentValue(announce, name, files, pieces)) ==
            if forall f :: f in files ==> Readable(f) then Some((name, Listed(files))) else None
  {
    FilesAre(files);
    var root, info := TorrentValue(announce, name, files, pieces), InfoValue(name, files, pieces);
    assert "announce" != "info" by { assert "announce"[0] == 'a' && "info"[0] == 'i'; }
    assert "files" != "name" by { assert "files"[0] == 'f' && "name"[0] == 'n'; }
    assert root.entries[1..][0] == Entry("info", info);
    assert FindKey(root.entries[1..], "info") == Some(info);
    assert info.entries[1..][0] == Entry("name", Str(name));
    assert FindKey(info.entries[1..], "name") == Some(Str(name));
  }

  /** The daemon lists exactly the files the writer was given, in order, unless a
      size does not fit an `i64` or a path component is not UTF-8; then it lists
      nothing. */
  lemma {:induction false} ListedExactly(announce: string, name: string, files: seq<SeedFile>, pieces: string)
    requires |announce| < U64 && |name| < U64 && |pieces| < U64 && IsUtf8(name)
    requires forall f :: f in files ==> f.size < U64 && FitsInMemory(f)
    ensures Extracted(TorrentText(announce, name, files, pieces)) ==
            if forall f :: f in files ==> f.size < I64 && Readable(f) then Some((name, Listed(files))) else None
  {
    if Small(files) {
      TorrentEncodes(announce, name, files, pieces);
      TorrentFits(announce, name, files, pieces);
      var v := TorrentValue(announce, name, files, pieces);
      RoundTrip(v, "");
      assert Encode(v) + "" == Encode(v);
      TorrentIs(announce, name, files, pieces);
    } else {
      BigTorrentFails(announce, name, files, pieces);
    }
  }

  /** A file of 2^63 bytes empties the list. */
  lemma {:induction false} BigFileEmptiesTheList()
    ensures Extracted(TorrentText("", "t", [SeedFile(["a"], I64)], "")).None?
  {
    OneBigFile();
    BigFileIsNotListed("", "t", SeedFile(["a"], I64), "");
  }

  lemma {:induction false} BigFileIsNotListed(announce: string, name: string, f: SeedFile, pieces: string)
    requires |announce| < U64 && |name| < U64 && |pieces| < U64 && IsUtf8(name)
    requires I64 <= f.size < U64 && FitsInMemory(f)
    ensures Extracted(TorrentText(announce, name, [f], pieces)).None?
  {
    ListedExactly(announce, name, [f], pieces);
    assert f in [f];
  }

  lemma {:induction false} OneBigFile()
    ensures FitsInMemory(SeedFile(["a"], I64)) && IsUtf8("t")
  {
    assert IsUtf8("t") by { assert Utf8Head("t") == 1 && "t"[1..] == ""; }
  }

  // ── What any torrent lists ───────────────────────────────────────────────

  /** The entry at `n` is the first with this key. */
  ghost predicate FirstAt(entries: seq<Entry>, key: string, n: int) {
    0 <= n < |entries| && entries[n].key == key && forall m :: 0 <= m < n ==> entries[m].key != key
  }

  /** The dictionary `v` has `w` under this key. */
  ghost predicate Has(v: Bencode, key: string, w: Bencode) {
    v.Dict? && exists n :: FirstAt(v.entries, key, n) && v.entries[n].value == w
  }

  lemma {:induction false} FindsFirst(entries: seq<Entry>, key: string) returns (n: int)
    ensures FindKey(entries, key).Some? ==> FirstAt(entries, key, n) && FindKey(entries, key) == Some(entries[n].value)
    ensures FindKey(entries, key).None? ==> forall m :: 0 <= m < |entries| ==> entries[m].key != key
  {
    if entries == [] || entries[0].key == key {
      n := 0;
    } else {
      var m := FindsFirst(entries[1..], key);
      n := m + 1;
      assert forall x :: 1 <= x < |entries| ==> entries[x] == entries[1..][x - 1];
    }
  }

  lemma {:induction false} GetExactly(v: Bencode, key: string, w: Bencode)
    ensures Get(v, key) == Some(w) <==> Has(v, key, w)
  {
    if v.Dict? {
      var n := FindsFirst(v.entries, key);
      if Has(v, key, w) {
        var m :| FirstAt(v.entries, key, m) && v.entries[m].value == w;
        assert m == n;
      }
    }
  }

  /** A list of strings, all of them UTF-8. */
  ghost predicate AreStrings(items: seq<Bencode>, parts: seq<string>) {
    |parts| == |items| && forall n :: 0 <= n < |items| ==> items[n] == Str(parts[n]) && IsUtf8(parts[n])
  }

  lemma {:induction false} PartsExactly(items: seq<Bencode>, parts: seq<string>)
    ensures PartsOf(items) == Some(parts) <==> AreStrings(items, parts)
  {
    if items != [] {
      if parts != [] {
        PartsExactly(items[1..], parts[1..]);
        assert parts == [parts[0]] + parts[1..];
        assert AreStrings(items, parts) <==> items[0] == Str(parts[0]) && IsUtf8(parts[0]) && AreStrings(items[1..], parts[1..]) by {
          assert forall n :: 1 <= n < |items| ==> items[n] == items[1..][n - 1];
          assert forall n :: 1 <= n < |parts| ==> parts[n] == parts[1..][n - 1];
        }
      }
    }
  }

  /** A dictionary with a length and a path. */
  ghost predicate Describes(v: Bencode, f: PendingFile) {
    Has(v, "length", Int(f.size)) && exists items, parts :: Has(v, "path", List(items)) && AreStrings(items, parts) && f.path == Join(parts)
  }

  lemma {:induction false} FileExactly(v: Bencode, f: PendingFile)
    ensures FileOf(v) == Some(f) <==> Describes(v, f)
  {
    GetExactly(v, "length", Int(f.size));
    if FileOf(v) == Some(f) {
      var items := GetList(v, "path").value;
      GetExactly(v, "path", List(items));
      PartsExactly(items, PartsOf(items).value);
    }
    if Describes(v, f) {
      var items, parts :| Has(v, "path", List(items)) && AreStrings(items, parts) && f.path == Join(parts);
      GetExactly(v, "path", List(items));
      PartsExactly(items, parts);
    }
  }

  ghost predicate AllDescribe(items: seq<Bencode>, files: seq<PendingFile>) {
    |files| == |items| && forall n :: 0 <= n < |items| ==> Describes(items[n], files[n])
  }

  lemma {:induction false} FilesExactly(items: seq<Bencode>, files: seq<PendingFile>)
    ensures FilesOf(items) == Some(files) <==> AllDescribe(items, files)
  {
    if items != [] {
      if files != [] {
        FileExactly(items[0], files[0]);
        FilesExactly(items[1..], files[1..]);
        assert files == [files[0]] + files[1..];
        AllDescribeFirst(items, files);
      }
    }
  }

  lemma {:induction false} AllDescribeFirst(items: seq<Bencode>, files: seq<PendingFile>)
    requires items != [] && files != []
    ensures AllDescribe(items, files) <==> Describes(items[0], files[0]) && AllDescribe(items[1..], files[1..])
  {
    assert forall n :: 1 <= n < |items| ==> items[n] == items[1..][n - 1];
    assert forall n :: 1 <= n < |files| ==> files[n] == files[1..][n - 1];
  }

  ghost predicate HasFileList(info: Bencode) { exists items :: Has(info, "files", List(items)) }

  /** What an `info` dictionary lists: the files it describes, or without such a list
      the one file that is named like the torrent. */
  ghost predicate InfoLists(info: Bencode, name: string, files: seq<PendingFile>) {
    && Has(info, "name", Str(name)) && IsUtf8(name)
    && if HasFileList(info) then exists items :: Has(info, "files", List(items)) && AllDescribe(items, files)
       else exists size :: Has(info, "length", Int(size)) && files == [PendingFile(name, size)]
  }

  lemma {:induction false} ListOrNot(info: Bencode)
    ensures GetList(info, "files").Some? <==> HasFileList(info)
    ensures forall items :: Has(info, "files", List(items)) <==> GetList(info, "files") == Some(items)
  {
    forall items ensures Has(info, "files", List(items)) <==> GetList(info, "files") == Some(items) {
      GetExactly(info, "files", List(items));
    }
    if GetList(info, "files").Some? { assert Has(info, "files", List(GetList(info, "files").value)); }
  }

  lemma {:induction false} SizeExactly(info: Bencode, name: string, files: seq<PendingFile>)
    ensures (exists size :: Has(info, "length", Int(size)) && files == [PendingFile(name, size)]) <==>
            GetInt(info, "length").Some? && files == [PendingFile(name, GetInt(info, "length").value)]
  {
    forall size: nat ensures Has(info, "length", Int(size)) <==> GetInt(info, "length") == Some(size) {
      GetExactly(info, "length", Int(size));
    }
  }

  lemma {:induction false} InfoExactly(root: Bencode, info: Bencode, name: string, files: seq<PendingFile>)
    requires Has(root, "info", info)
    ensures FileList(root) == Some((name, files)) <==> InfoLists(info, name, files)
  {
    GetExactly(root, "info", info);
    GetExactly(info, "name", Str(name));
    ListOrNot(info);
    SizeExactly(info, name, files);
    if HasFileList(info) { FilesExactly(GetList(info, "files").value, files); }
  }

  /** The torrent `root` lists these files under this name. */
  ghost predicate Lists(root: Bencode, name: string, files: seq<PendingFile>) {
    exists info :: Has(root, "info", info) && InfoLists(info, name, files)
  }

  lemma {:induction false} FileListExactly(root: Bencode, name: string, files: seq<PendingFile>)
    ensures FileList(root) == Some((name, files)) <==> Lists(root, name, files)
  {
    if FileList(root) == Some((name, files)) {
      var info := Get(root, "info").value;
      GetExactly(root, "info", info);
      InfoExactly(root, info, name, files);
    }
    if Lists(root, name, files) {
      var info :| Has(root, "info", info) && InfoLists(info, name, files);
      InfoExactly(root, info, name, files);
    }
  }

  /** These bytes start with the bencoding of a torrent that lists these files. */
  ghost predicate Holds(data: string, name: string, files: seq<PendingFile>) {
    exists root, w, rest :: data == w + rest && Derives(root, w) && Lists(root, name, files)
  }

  /** Extraction, on any bytes: a name and files come out exactly when the bytes start
      with the bencoding of a torrent that lists them. */
  lemma {:induction false} ExtractedExactly(data: string, name: string, files: seq<PendingFile>)
    ensures Extracted(data) == Some((name, files)) <==> Holds(data, name, files)
  {
    var r := ParseValue(data);
    if r.Some? {
      FileListExactly(r.value.value, name, files);
      ParsesExactly(data, r.value.value, r.value.rest);
    }
    if Holds(data, name, files) {
      var root, w, rest :| data == w + rest && Derives(root, w) && Lists(root, name, files);
      ParsesExactly(data, root, rest);
    }
  }

  /** A single-file torrent, with whatever else it says, lists one file: its name and
      its length. */
  lemma {:induction false} SingleFileIsListed(root: Bencode, info: Bencode, name: string, size: nat, rest: string)
    requires Fits(root) && Has(root, "info", info) && !HasFileList(info)
    requires Has(info, "name", Str(name)) && IsUtf8(name) && Has(info, "length", Int(size))
    ensures Extracted(Encode(root) + rest) == Some((name, [PendingFile(name, size)]))
  {
    RoundTrip(root, rest);
    InfoExactly(root, info, name, [PendingFile(name, size)]);
  }
}
