/** What the formats of the web archive mean in bytes and characters. */
module ArchiveLaws {
  import opened WebArchive

  // ----- file names -----

  predicate Allowed(c: char) {
    'a' <= c <= 'z' || 'A' <= c <= 'Z' || '0' <= c <= '9' || c == '_' || c == '-' || c == '.'
  }

  /** htm, html, css or js in any case. */
  predicate WebExtension(s: string) {
    || (|s| == 3 && s[0] in "hH" && s[1] in "tT" && s[2] in "mM")
    || (|s| == 4 && s[0] in "hH" && s[1] in "tT" && s[2] in "mM" && s[3] in "lL")
    || (|s| == 3 && s[0] in "cC" && s[1] in "sS" && s[2] in "sS")
    || (|s| == 2 && s[0] in "jJ" && s[1] in "sS")
  }

  /** A name is accepted exactly when it has allowed characters only and is a base, a dot and
      one of the four extensions. */
  lemma NameOkIff(s: string)
    ensures NameOk(s) <==>
      (forall c :: c in s ==> Allowed(c)) &&
      exists base, ext :: base != "" && WebExtension(ext) && s == base + "." + ext
  {
    hide HasExtension, NameChar, Allowed;
    forall k | 0 <= k < |s| ensures NameChar(s[k]) <==> Allowed(s[k]) {
      NameCharTable(s[k]);
    }
    if NameOk(s) {
      var ext :| ext in EXTENSIONS && HasExtension(s, ext);
      ExtensionOf(s, ext);
    }
    if base, ext :| base != "" && WebExtension(ext) && s == base + "." + ext {
      if |ext| == 2 {
        ExtensionIs(base, ext, "js", 3);
      } else if |ext| == 4 {
        ExtensionIs(base, ext, "html", 1);
      } else if ext[0] in "hH" {
        ExtensionIs(base, ext, "htm", 0);
      } else {
        ExtensionIs(base, ext, "css", 2);
      }
    }
  }

  lemma NameCharTable(c: char)
    ensures NameChar(c) <==> Allowed(c)
  {
  }

  lemma LowerTable(c: char)
    ensures (Lower(c) == 'h' <==> c in "hH") && (Lower(c) == 't' <==> c in "tT") && (Lower(c) == 'm' <==> c in "mM")
    ensures (Lower(c) == 'l' <==> c in "lL") && (Lower(c) == 'c' <==> c in "cC") && (Lower(c) == 's' <==> c in "sS")
    ensures Lower(c) == 'j' <==> c in "jJ"
  {
  }

  lemma ExtensionOf(s: string, ext: string)
    requires ext in ["htm", "html", "css", "js"] && HasExtension(s, ext)
    ensures exists base, tail :: base != "" && WebExtension(tail) && s == base + "." + tail
  {
    var n := |s| - |ext| - 1;
    var base, tail := s[..n], s[n + 1..];
    assert s == base + "." + tail;
    forall k | 0 <= k < |ext| ensures Lower(tail[k]) == ext[k] {
      assert tail[k] == s[|s| - |ext| + k];
    }
    EachLower(tail, ext);
  }

  lemma EachLower(tail: string, ext: string)
    requires ext in ["htm", "html", "css", "js"] && |tail| == |ext|
    ensures (forall k :: 0 <= k < |ext| ==> Lower(tail[k]) == ext[k]) ==> WebExtension(tail)
    ensures WebExtension(tail) && (|ext| == 3 ==> (tail[0] in "hH" <==> ext == "htm")) ==>
      forall k :: 0 <= k < |ext| ==> Lower(tail[k]) == ext[k]
  {
    hide Lower;
    LowerTable(tail[0]);
    LowerTable(tail[1]);
    if |tail| > 2 {
      LowerTable(tail[2]);
    }
    if |tail| > 3 {
      LowerTable(tail[3]);
    }
  }

  lemma ExtensionIs(base: string, tail: string, ext: string, k: nat)
    requires base != "" && WebExtension(tail) && |tail| == |ext|
    requires k < 4 && ext == ["htm", "html", "css", "js"][k]
    requires |ext| == 3 ==> (tail[0] in "hH" <==> ext == "htm")
    ensures HasExtension(base + "." + tail, ext) && ext in EXTENSIONS
  {
    hide Lower, WebExtension;
    assert EXTENSIONS[k] == ext;
    EachLower(tail, ext);
    var s := base + "." + tail;
    assert forall i :: 0 <= i < |ext| ==> s[|s| - |ext| + i] == tail[i];
  }

  // ----- bytes -----

  /** What ends a name: blanks, controls and everything beyond ASCII. */
  lemma PrintableTable(b: byte)
    ensures Printable(b) <==> b as int !in [0x7f] && 0x20 < b as int < 0x80
  {
  }

  lemma MarkerTable(data: Bytes, q: nat)
    requires q + 3 <= |data|
    ensures IsMarker(data, q) <==> data[q..q + 3] == [0, 0, 0]
  {
    assert data[q..q + 3] == [data[q], data[q + 1], data[q + 2]];
  }

  lemma LengthTable(a: byte, b: byte, c: byte, d: byte)
    ensures LittleEndian([1, 2, 3, 4]) == 0x04030201
    ensures LittleEndian([a, b, c, d]) == ((d as int * 256 + c as int) * 256 + b as int) * 256 + a as int
  {
  }

  /** The file a.js with a payload of two bytes, as it lies in an archive. */
  const SAMPLE: Bytes := [0, 0, 0, 0x61, 0x2e, 0x6a, 0x73, 0, 1, 2, 3, 2, 0, 0, 0, 7, 8]

  method SampleArchive() returns (files: seq<File>)
    ensures files == [File("a.js", [7, 8])]
  {
    hide IsExtraction, NameOk, RecordAt, Files;
    var rs;
    rs, files := Extract(SAMPLE + [5]);
    var e := Entry(File("a.js", [7, 8]), [0, 1, 2, 3]);
    SampleIs(e);
    NothingInOneByte();
    assert PrintAll([e]) == SAMPLE by {
      assert PrintAll([e]) == Print(e) + PrintAll([e][1..]) && [e][1..] == [];
    }
    RoundTrip([e], [5], [], rs);
    assert FilesOf([e]) == [e.file] by {
      assert [e][1..] == [];
    }
    assert Files([5], []) == [];
  }

  lemma SampleIs(e: Entry)
    requires e == Entry(File("a.js", [7, 8]), [0, 1, 2, 3])
    ensures ValidEntry(e) && Print(e) == SAMPLE
  {
    hide NameOk, LittleEndian;
    SampleName();
    assert [0, 0, 0] + Encode("a.js") + [0, 1, 2, 3] + ToLittleEndian(2) + [7, 8] == SAMPLE;
  }

  lemma SampleName()
    ensures NameOk("a.js") && Encode("a.js") == [0x61, 0x2e, 0x6a, 0x73]
  {
    hide NameOk;
    assert WebExtension("js") && "a.js" == "a" + "." + "js";
    NameOkIff("a.js");
    var bs := Encode("a.js");
    assert |bs| == 4 && bs[0] as char == 'a' && bs[1] as char == '.' && bs[2] as char == 'j' && bs[3] as char == 's';
  }

  lemma NothingInOneByte()
    ensures IsExtraction([5], [])
  {
    hide NameOk, LittleEndian;
    forall q: nat ensures !RecordStart([5], q) {
    }
  }
}
