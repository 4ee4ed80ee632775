/** The resynchronising record scanner that unpacks a decompressed web archive (Planter). */
module WebArchive {

  newtype byte = x: int | 0 <= x < 256
  type Bytes = seq<byte>

  /** Where one extracted file lies: marker, end of name, end of payload. */
  datatype Record = Record(pos: nat, nameEnd: nat, end: nat)

  datatype File = File(name: string, payload: Bytes)

  // ----- what a record is -----

  predicate IsMarker(data: Bytes, q: nat) {
    q + 3 <= |data| && data[q] == 0 && data[q + 1] == 0 && data[q + 2] == 0
  }

  predicate Printable(b: byte) {
    0x21 <= b <= 0x7e
  }

  /** `i` is where the printable characters from `start` on end. */
  predicate NameSpan(data: Bytes, start: nat, i: nat) {
    && start <= i <= |data|
    && (forall k :: start <= k < i ==> Printable(data[k]))
    && (i < |data| ==> !Printable(data[i]))
  }

  function Decode(bs: Bytes): (s: string)
    requires forall b :: b in bs ==> Printable(b)
    ensures |s| == |bs|
  {
    seq(|bs|, k requires 0 <= k < |bs| => bs[k] as char)
  }

  function Lower(c: char): char {
    if 'A' <= c <= 'Z' then c - 'A' + 'a' else c
  }

  predicate NameChar(c: char) {
    'a' <= Lower(c) <= 'z' || '0' <= c <= '9' || c == '_' || c == '-' || c == '.'
  }

  /** s ends in a dot and the (lower-case) extension, in any case, after at least one character. */
  predicate HasExtension(s: string, ext: string) {
    && |s| > |ext| + 1
    && s[|s| - |ext| - 1] == '.'
    && forall k :: 0 <= k < |ext| ==> Lower(s[|s| - |ext| + k]) == ext[k]
  }

  const EXTENSIONS: seq<string> := ["htm", "html", "css", "js"]

  /** The pattern a file name must match. */
  predicate NameOk(s: string) {
    && (forall k :: 0 <= k < |s| ==> NameChar(s[k]))
    && exists ext :: ext in EXTENSIONS && HasExtension(s, ext)
  }

  function LittleEndian(b: Bytes): nat
    requires |b| == 4
  {
    b[0] as nat + 0x100 * b[1] as nat + 0x10000 * b[2] as nat + 0x1000000 * b[3] as nat
  }

  /** A complete record at r.pos: marker, matching name, four skipped bytes, length, payload,
      all within the data. */
  predicate RecordAt(data: Bytes, r: Record) {
    && IsMarker(data, r.pos)
    && NameSpan(data, r.pos + 3, r.nameEnd)
    && NameOk(Decode(data[r.pos + 3..r.nameEnd]))
    && r.nameEnd + 8 <= r.end <= |data|
    && r.end == r.nameEnd + 8 + LittleEndian(data[r.nameEnd + 4..r.nameEnd + 8])
  }

  function FileOf(data: Bytes, r: Record): File
    requires RecordAt(data, r)
  {
    File(Decode(data[r.pos + 3..r.nameEnd]), data[r.nameEnd + 8..r.end])
  }

  ghost predicate Covered(rs: seq<Record>, q: nat) {
    exists i :: 0 <= i < |rs| && rs[i].pos <= q < rs[i].end
  }

  /** Some complete record starts at q. */
  ghost predicate RecordStart(data: Bytes, q: nat) {
    exists r :: RecordAt(data, r) && r.pos == q
  }

  predicate AllRecords(data: Bytes, rs: seq<Record>) {
    forall i :: 0 <= i < |rs| ==> RecordAt(data, rs[i])
  }

  /** What extraction means, without saying how to scan: complete records, in order and
      disjoint, such that every complete record of the data starts inside a listed one. */
  ghost predicate IsExtraction(data: Bytes, rs: seq<Record>) {
    && AllRecords(data, rs)
    && (forall i, j :: 0 <= i < j < |rs| ==> rs[i].end <= rs[j].pos)
    && (forall q: nat :: RecordStart(data, q) ==> Covered(rs, q))
  }

  function Files(data: Bytes, rs: seq<Record>): (fs: seq<File>)
    requires AllRecords(data, rs)
    ensures |fs| == |rs|
  {
    seq(|rs|, i requires 0 <= i < |rs| && RecordAt(data, rs[i]) => FileOf(data, rs[i]))
  }

  // ----- the scanner -----

  method FindMarker(data: Bytes, p: nat) returns (pos: int)
    ensures pos == -1 ==> forall q :: p <= q ==> !IsMarker(data, q)
    ensures pos != -1 ==> p <= pos && IsMarker(data, pos) && forall q :: p <= q < pos ==> !IsMarker(data, q)
  {
    pos := p;
    while pos + 3 <= |data|
      invariant p <= pos
      invariant forall q :: p <= q < pos ==> !IsMarker(data, q)
    {
      if IsMarker(data, pos) {
        return;
      }
      pos := pos + 1;
    }
    pos := -1;
  }

  lemma NameIsLong(s: string)
    requires NameOk(s)
    ensures |s| >= 4
  {
  }

  lemma NameSpanUnique(data: Bytes, start: nat, i: nat, j: nat)
    requires NameSpan(data, start, i) && NameSpan(data, start, j)
    ensures i == j
  {
  }

  /** A record is determined by where its marker is. */
  lemma RecordDetermined(data: Bytes, r: Record, q: Record)
    requires RecordAt(data, r) && RecordAt(data, q) && r.pos == q.pos
    ensures r == q
  {
    NameSpanUnique(data, r.pos + 3, r.nameEnd, q.nameEnd);
  }

  /** Every complete record that starts before p starts inside a listed one. */
  ghost predicate CoveredBelow(data: Bytes, rs: seq<Record>, p: nat) {
    forall q: nat :: RecordStart(data, q) && q < p ==> Covered(rs, q)
  }

  lemma NoMarkerNoRecord(data: Bytes, rs: seq<Record>, p: nat, pos: nat)
    requires CoveredBelow(data, rs, p)
    requires forall q :: p <= q < pos ==> !IsMarker(data, q)
    ensures CoveredBelow(data, rs, pos)
  {
    hide Covered;
  }

  lemma RecordHere(data: Bytes, i: nat, r: Record)
    requires RecordAt(data, r) && NameSpan(data, r.pos + 3, i)
    ensures NameOk(Decode(data[r.pos + 3..i])) && i + 8 <= |data|
    ensures i + 8 + LittleEndian(data[i + 4..i + 8]) == r.end <= |data|
  {
    NameSpanUnique(data, r.pos + 3, i, r.nameEnd);
  }

  /** A mismatched name, or a payload over the end: no record starts at this marker. */
  lemma RejectedMarker(data: Bytes, rs: seq<Record>, pos: nat, i: nat)
    requires CoveredBelow(data, rs, pos) && NameSpan(data, pos + 3, i)
    requires !NameOk(Decode(data[pos + 3..i]))
      || (i + 8 <= |data| && i + 8 + LittleEndian(data[i + 4..i + 8]) > |data|)
    ensures CoveredBelow(data, rs, pos + 1)
  {
    hide RecordAt, Covered, NameOk, NameSpan;
    if RecordStart(data, pos) {
      var r :| RecordAt(data, r) && r.pos == pos;
      RecordHere(data, i, r);
      assert false;
    }
  }

  /** A marker in the last three bytes starts no record, nor does any later one. */
  lemma MarkerAtEnd(data: Bytes, rs: seq<Record>, pos: nat)
    requires CoveredBelow(data, rs, pos) && pos + 3 >= |data|
    ensures CoveredBelow(data, rs, |data|)
  {
    hide Covered;
    forall q: nat | RecordStart(data, q) ensures q < pos {
      var r :| RecordAt(data, r) && r.pos == q;
    }
  }

  /** A record from a marker with a non-empty name on starts there or after that name, so a
      header cut off by the end of the data leaves no room for one. */
  lemma RoomForRecord(data: Bytes, pos: nat, i: nat, r: Record)
    requires IsMarker(data, pos) && NameSpan(data, pos + 3, i) && i > pos + 3
    requires pos <= r.pos && RecordAt(data, r)
    ensures i + 8 <= |data|
  {
    assert Printable(data[pos + 3]);
    assert !Printable(data[r.pos]) && !Printable(data[r.pos + 1]) && !Printable(data[r.pos + 2]);
    if r.pos == pos {
      NameSpanUnique(data, pos + 3, i, r.nameEnd);
    }
  }

  lemma TruncatedHeader(data: Bytes, rs: seq<Record>, pos: nat, i: nat)
    requires CoveredBelow(data, rs, pos) && IsMarker(data, pos) && NameSpan(data, pos + 3, i)
    requires i > pos + 3 && i + 8 > |data|
    ensures CoveredBelow(data, rs, |data|)
  {
    hide RecordAt, Covered;
    forall q: nat | RecordStart(data, q) ensures q < pos {
      var r :| RecordAt(data, r) && r.pos == q;
      if pos <= q {
        RoomForRecord(data, pos, i, r);
        assert false;
      }
    }
  }

  lemma AcceptedRecord(data: Bytes, rs: seq<Record>, r: Record)
    requires CoveredBelow(data, rs, r.pos)
    ensures CoveredBelow(data, rs + [r], r.end)
  {
    hide RecordStart, Covered;
    forall q: nat | RecordStart(data, q) && q < r.end ensures Covered(rs + [r], q) {
      if q < r.pos {
        var k := Cover(rs, q);
        CoveredAt(rs + [r], k, q);
      } else {
        CoveredAt(rs + [r], |rs|, q);
      }
    }
  }

  lemma CoveredAt(rs: seq<Record>, k: nat, q: nat)
    requires k < |rs| && rs[k].pos <= q < rs[k].end
    ensures Covered(rs, q)
  {
  }

  /** The scan. `files` lists what is written, in writing order. */
  method Extract(data: Bytes) returns (rs: seq<Record>, files: seq<File>)
    ensures IsExtraction(data, rs)
    ensures files == Files(data, rs)
  {
    hide Covered, CoveredBelow, NameOk, RecordAt, RecordStart, FileOf, LittleEndian;
    var p := 0;
    rs, files := [], [];
    assert CoveredBelow(data, rs, p) by { NothingBelowZero(data, rs); }
    while true
      invariant p <= |data|
      invariant AllRecords(data, rs)
      invariant forall i, j :: 0 <= i < j < |rs| ==> rs[i].end <= rs[j].pos
      invariant forall i :: 0 <= i < |rs| ==> rs[i].end <= p
      invariant CoveredBelow(data, rs, p)
      invariant files == Files(data, rs)
      decreases |data| - p
    {
      var pos := FindMarker(data, p);
      if pos == -1 {
        NoMarkerNoRecord(data, rs, p, |data|);
        break;
      }
      NoMarkerNoRecord(data, rs, p, pos);
      if pos + 3 >= |data| {
        MarkerAtEnd(data, rs, pos);
        break;
      }
      var start := pos + 3;
      var i := start;
      while i < |data| && Printable(data[i])
        invariant start <= i <= |data|
        invariant forall k :: start <= k < i ==> Printable(data[k])
      {
        i := i + 1;
      }
      var name := Decode(data[start..i]);
      if !NameOk(name) {
        RejectedMarker(data, rs, pos, i);
        p := pos + 1;
        continue;
      }
      NameIsLong(name);
      if i + 8 > |data| {
        TruncatedHeader(data, rs, pos, i);
        break;
      }
      var length := LittleEndian(data[i + 4..i + 8]);
      var dataStart := i + 8;
      var dataEnd := dataStart + length;
      if dataEnd > |data| {
        RejectedMarker(data, rs, pos, i);
        p := pos + 1;
        continue;
      }
      var r := Record(pos, i, dataEnd);
      assert RecordAt(data, r) && FileOf(data, r) == File(name, data[dataStart..dataEnd]) by {
        FoundRecord(data, r);
      }
      AcceptedRecord(data, rs, r);
      rs, files := rs + [r], files + [File(name, data[dataStart..dataEnd])];
      p := dataEnd;
    }
    AllCovered(data, rs);
  }

  lemma FoundRecord(data: Bytes, r: Record)
    requires IsMarker(data, r.pos) && NameSpan(data, r.pos + 3, r.nameEnd) && r.nameEnd + 8 <= r.end <= |data|
    requires NameOk(Decode(data[r.pos + 3..r.nameEnd]))
    requires r.end == r.nameEnd + 8 + LittleEndian(data[r.nameEnd + 4..r.nameEnd + 8])
    ensures RecordAt(data, r)
    ensures FileOf(data, r) == File(Decode(data[r.pos + 3..r.nameEnd]), data[r.nameEnd + 8..r.end])
  {
  }

  lemma NothingBelowZero(data: Bytes, rs: seq<Record>)
    ensures CoveredBelow(data, rs, 0)
  {
  }

  lemma AllCovered(data: Bytes, rs: seq<Record>)
    requires CoveredBelow(data, rs, |data|)
    ensures forall q: nat :: RecordStart(data, q) ==> Covered(rs, q)
  {
    hide Covered;
    forall q: nat | RecordStart(data, q) ensures q < |data| {
      var r :| RecordAt(data, r) && r.pos == q;
    }
  }

  /** The scan is the only extraction there is. */
  lemma ExtractionUnique(data: Bytes, rs: seq<Record>, qs: seq<Record>)
    requires IsExtraction(data, rs) && IsExtraction(data, qs)
    ensures rs == qs
  {
    hide RecordAt, Covered;
    SamePrefix(data, rs, qs, |rs|);
    SamePrefix(data, qs, rs, |qs|);
  }

  lemma {:induction false} SamePrefix(data: Bytes, rs: seq<Record>, qs: seq<Record>, n: nat)
    requires IsExtraction(data, rs) && IsExtraction(data, qs) && n <= |rs|
    ensures n <= |qs| && rs[..n] == qs[..n]
  {
    hide RecordAt, Covered, IsExtraction;
    if n > 0 {
      var k := n - 1;
      SamePrefix(data, rs, qs, k);
      NotBefore(data, rs, qs, k);
      NotBefore(data, qs, rs, k);
      RecordDetermined(data, rs[k], qs[k]);
      assert rs[..n] == rs[..k] + [rs[k]] && qs[..n] == qs[..k] + [qs[k]];
    }
  }

  lemma Cover(rs: seq<Record>, q: nat) returns (i: nat)
    requires Covered(rs, q)
    ensures i < |rs| && rs[i].pos <= q < rs[i].end
  {
    i :| 0 <= i < |rs| && rs[i].pos <= q < rs[i].end;
  }

  lemma RecordNonEmpty(data: Bytes, r: Record)
    requires RecordAt(data, r)
    ensures r.pos < r.end
  {
  }

  /** If both agree on the first k records, the next of qs starts no later than that of rs. */
  lemma NotBefore(data: Bytes, rs: seq<Record>, qs: seq<Record>, k: nat)
    requires IsExtraction(data, rs) && IsExtraction(data, qs)
    requires k < |rs| && k <= |qs| && rs[..k] == qs[..k]
    ensures k < |qs| && qs[k].pos <= rs[k].pos && RecordAt(data, rs[k])
  {
    hide RecordAt, Covered;
    assert RecordAt(data, rs[k]) && RecordStart(data, rs[k].pos);
    assert forall i :: 0 <= i < k ==> rs[i] == rs[..k][i] && qs[i] == qs[..k][i];
    var i := Cover(qs, rs[k].pos);
    assert qs[k].pos < qs[k].end by {
      RecordNonEmpty(data, qs[k]);
    }
  }

  // ----- writing archives -----

  /** A file and the four bytes that follow its name, the first of which ends the name. */
  datatype Entry = Entry(file: File, pad: Bytes)

  ghost predicate ValidFile(f: File) {
    NameOk(f.name) && |f.payload| < 0x1_0000_0000
  }

  ghost predicate ValidEntry(e: Entry) {
    ValidFile(e.file) && |e.pad| == 4 && !Printable(e.pad[0])
  }

  function Encode(s: string): (bs: Bytes)
    requires NameOk(s)
    ensures |bs| == |s| && forall k :: 0 <= k < |s| ==> Printable(bs[k]) && bs[k] as char == s[k]
  {
    seq(|s|, k requires 0 <= k < |s| => s[k] as byte)
  }

  function ToLittleEndian(n: nat): (b: Bytes)
    requires n < 0x1_0000_0000
    ensures |b| == 4 && LittleEndian(b) == n
  {
    var n1 := n / 0x100;
    var n2 := n1 / 0x100;
    var n3 := n2 / 0x100;
    assert n == n % 0x100 + 0x100 * (n1 % 0x100 + 0x100 * (n2 % 0x100 + 0x100 * n3));
    [(n % 0x100) as byte, (n1 % 0x100) as byte, (n2 % 0x100) as byte, n3 as byte]
  }

  function Print(e: Entry): Bytes
    requires ValidEntry(e)
  {
    [0, 0, 0] + Encode(e.file.name) + e.pad + ToLittleEndian(|e.file.payload|) + e.file.payload
  }

  function PrintAll(es: seq<Entry>): Bytes
    requires forall e :: e in es ==> ValidEntry(e)
  {
    if es == [] then [] else Print(es[0]) + PrintAll(es[1..])
  }

  function FilesOf(es: seq<Entry>): seq<File> {
    if es == [] then [] else [es[0].file] + FilesOf(es[1..])
  }

  function Shift(rs: seq<Record>, d: nat): (qs: seq<Record>)
    ensures |qs| == |rs|
  {
    seq(|rs|, i requires 0 <= i < |rs| => ShiftRecord(rs[i], d))
  }

  function ShiftRecord(r: Record, d: nat): Record {
    Record(r.pos + d, r.nameEnd + d, r.end + d)
  }

  lemma MarkerShift(a: Bytes, b: Bytes, q: nat)
    ensures IsMarker(a + b, q + |a|) <==> IsMarker(b, q)
  {
  }

  lemma NameSpanShift(a: Bytes, b: Bytes, start: nat, i: nat)
    ensures NameSpan(a + b, start + |a|, i + |a|) <==> NameSpan(b, start, i)
    ensures NameSpan(b, start, i) ==> start <= i <= |b|
  {
    hide Printable;
    var data := a + b;
    if NameSpan(data, start + |a|, i + |a|) {
      forall k | start <= k < i ensures Printable(b[k]) {
        assert data[k + |a|] == b[k];
      }
    }
    if NameSpan(b, start, i) {
      forall k | start + |a| <= k < i + |a| ensures Printable(data[k]) {
        assert data[k] == b[k - |a|];
      }
    }
  }

  lemma SliceShift(a: Bytes, b: Bytes, i: nat, j: nat)
    requires i <= j <= |b|
    ensures (a + b)[i + |a|..j + |a|] == b[i..j]
  {
  }

  /** Records do not depend on what precedes them. */
  lemma RecordShift(a: Bytes, b: Bytes, r: Record)
    ensures RecordAt(a + b, ShiftRecord(r, |a|)) <==> RecordAt(b, r)
    ensures RecordAt(b, r) ==> FileOf(a + b, ShiftRecord(r, |a|)) == FileOf(b, r)
  {
    hide NameOk, LittleEndian, NameSpan, IsMarker, Decode;
    var q, data := ShiftRecord(r, |a|), a + b;
    MarkerShift(a, b, r.pos);
    NameSpanShift(a, b, r.pos + 3, r.nameEnd);
    if q.pos + 3 <= q.nameEnd <= |data| {
      SliceShift(a, b, r.pos + 3, r.nameEnd);
    }
    if q.nameEnd + 8 <= q.end <= |data| {
      SliceShift(a, b, r.nameEnd + 4, r.nameEnd + 8);
      SliceShift(a, b, r.nameEnd + 8, r.end);
    }
  }

  /** The record that Print writes is found at its own start. */
  lemma PrintedRecord(e: Entry, t: Bytes)
    requires ValidEntry(e)
    ensures var r := Record(0, 3 + |e.file.name|, |Print(e)|);
      RecordAt(Print(e) + t, r) && FileOf(Print(e) + t, r) == e.file
  {
    hide NameOk, LittleEndian, Printable;
    var name, payload, data := e.file.name, e.file.payload, Print(e) + t;
    var i := 3 + |name|;
    assert data[..3] == [0, 0, 0];
    assert IsMarker(data, 0) by { assert data[0] == data[..3][0] && data[1] == data[..3][1] && data[2] == data[..3][2]; }
    assert data[3..i] == Encode(name);
    assert forall k :: 3 <= k < i ==> data[k] == Encode(name)[k - 3];
    assert data[i] == e.pad[0];
    assert Decode(data[3..i]) == name;
    assert data[i + 4..i + 8] == ToLittleEndian(|payload|);
    assert data[i + 8..|Print(e)|] == payload;
  }

  /** A printed record in front of an archive is extracted first, and changes nothing after. */
  lemma ConsExtraction(e: Entry, t: Bytes, ts: seq<Record>) returns (rs: seq<Record>)
    requires ValidEntry(e) && IsExtraction(t, ts)
    ensures IsExtraction(Print(e) + t, rs)
    ensures Files(Print(e) + t, rs) == [e.file] + Files(t, ts)
  {
    hide RecordAt, Covered, Print, FileOf;
    var a := Print(e);
    var data := a + t;
    var first := Record(0, 3 + |e.file.name|, |a|);
    PrintedRecord(e, t);
    rs := [first] + Shift(ts, |a|);
    forall i | 0 <= i < |rs| ensures RecordAt(data, rs[i]) && FileOf(data, rs[i]) == ([e.file] + Files(t, ts))[i] {
      if i > 0 {
        RecordShift(a, t, ts[i - 1]);
      }
    }
    forall start: nat | RecordStart(data, start) ensures Covered(rs, start) {
      if start < |a| {
        CoveredAt(rs, 0, start);
      } else {
        var r :| RecordAt(data, r) && r.pos == start;
        RecordBounds(data, r);
        var q := Record(r.pos - |a|, r.nameEnd - |a|, r.end - |a|);
        assert ShiftRecord(q, |a|) == r;
        RecordShift(a, t, q);
        assert RecordStart(t, q.pos);
        var k := Cover(ts, q.pos);
        CoveredAt(rs, k + 1, start);
      }
    }
  }

  lemma RecordBounds(data: Bytes, r: Record)
    requires RecordAt(data, r)
    ensures r.pos < r.nameEnd < r.end <= |data|
  {
  }

  lemma {:induction false} PrintedExtraction(es: seq<Entry>, t: Bytes, ts: seq<Record>) returns (rs: seq<Record>)
    requires (forall e :: e in es ==> ValidEntry(e)) && IsExtraction(t, ts)
    ensures IsExtraction(PrintAll(es) + t, rs)
    ensures Files(PrintAll(es) + t, rs) == FilesOf(es) + Files(t, ts)
  {
    hide IsExtraction, ValidEntry, Print, RecordAt, FileOf;
    if es == [] {
      assert PrintAll(es) + t == t;
      rs := ts;
    } else {
      var rest := PrintAll(es[1..]) + t;
      assert PrintAll(es) + t == Print(es[0]) + rest;
      var tail := PrintedExtraction(es[1..], t, ts);
      rs := ConsExtraction(es[0], rest, tail);
    }
  }

  /** Round trip: scanning any printed list of files, with anything after it, gives that list
      back in order, followed by what scanning the rest alone gives. */
  lemma RoundTrip(es: seq<Entry>, t: Bytes, ts: seq<Record>, rs: seq<Record>)
    requires forall e :: e in es ==> ValidEntry(e)
    requires IsExtraction(t, ts) && IsExtraction(PrintAll(es) + t, rs)
    ensures Files(PrintAll(es) + t, rs) == FilesOf(es) + Files(t, ts)
  {
    var qs := PrintedExtraction(es, t, ts);
    ExtractionUnique(PrintAll(es) + t, rs, qs);
  }

  function Entries(fs: seq<File>, pad: Bytes): (es: seq<Entry>)
    ensures |es| == |fs| && forall i :: 0 <= i < |es| ==> es[i] == Entry(fs[i], pad)
    ensures FilesOf(es) == fs
  {
    if fs == [] then [] else [Entry(fs[0], pad)] + Entries(fs[1..], pad)
  }

  lemma ExtractedFileValid(data: Bytes, r: Record)
    requires RecordAt(data, r)
    ensures ValidFile(FileOf(data, r))
  {
    assert |data[r.nameEnd + 4..r.nameEnd + 8]| == 4;
  }

  /** Whatever is extracted from arbitrary bytes can be archived again, and scanning that
      archive gives the same files. */
  lemma Repack(data: Bytes, rs: seq<Record>, pad: Bytes, qs: seq<Record>)
    requires IsExtraction(data, rs) && |pad| == 4 && !Printable(pad[0])
    ensures forall e :: e in Entries(Files(data, rs), pad) ==> ValidEntry(e)
    ensures IsExtraction(PrintAll(Entries(Files(data, rs), pad)), qs) ==>
      Files(PrintAll(Entries(Files(data, rs), pad)), qs) == Files(data, rs)
  {
    hide RecordAt, FileOf, Covered, ValidFile, Print, PrintAll;
    var es := Entries(Files(data, rs), pad);
    forall e | e in es ensures ValidEntry(e) {
      var i :| 0 <= i < |es| && es[i] == e;
      ExtractedFileValid(data, rs[i]);
    }
    assert PrintAll(es) + [] == PrintAll(es);
    if IsExtraction(PrintAll(es), qs) {
      EmptyExtraction();
      RoundTrip(es, [], [], qs);
    }
  }

  lemma EmptyExtraction()
    ensures IsExtraction([], [])
  {
  }
}
