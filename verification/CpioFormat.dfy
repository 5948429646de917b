/**
 The New ASCII Format of cpio(5), as the initial ramdisk has it: hexadecimal fields, a header of 110
 bytes, the name with its NUL, and the data, each padded to four bytes.  Bytes are characters.
 */
module CpioFormat {
  import opened Prelude

  const TWO_32: nat := 0x1_0000_0000
  const NUL: char := '\0'
  const MAGIC: string := "070701"
  const TRAILER: string := "TRAILER!!!"
  const HEADER: nat := 110       // sizeof(cpio_header)
  const FILESIZE_AT: nat := 54   // offset of c_filesize
  const NAMESIZE_AT: nat := 94   // offset of c_namesize

  predicate NulFree(s: string) {
    NUL !in s
  }

  // ---- Hexadecimal fields ----

  function Digit(c: char): (d: Option<nat>)
    ensures d.Some? ==> d.value < 16
  {
    if '0' <= c <= '9' then Some((c - '0') as nat)
    else if 'a' <= c <= 'f' then Some((c - 'a') as nat + 10)
    else if 'A' <= c <= 'F' then Some((c - 'A') as nat + 10)
    else None
  }

  // The digits are those of hexadecimal, in either case, and nothing else.
  lemma DigitIsHex(c: char, d: nat)
    ensures Digit(c) == Some(d) <==> d < 16 && (c == "0123456789abcdef"[d] || c == "0123456789ABCDEF"[d])
  {
    if d < 10 {
      assert "0123456789abcdef"[d] == "0123456789ABCDEF"[d] == '0' + d as char;
    } else if d < 16 {
      assert "0123456789abcdef"[d] == 'a' + (d - 10) as char && "0123456789ABCDEF"[d] == 'A' + (d - 10) as char;
    }
  }

  function HexChar(d: nat): (c: char)
    requires d < 16
    ensures Digit(c) == Some(d)
  {
    if d < 10 then '0' + d as char else 'a' + (d - 10) as char
  }

  predicate AllDigits(s: string) {
    forall i :: 0 <= i < |s| ==> Digit(s[i]).Some?
  }

  // The number a string of hexadecimal digits denotes.
  function Value(s: string): nat
    requires AllDigits(s)
  {
    if s == [] then 0 else 16 * Value(s[..|s| - 1]) + Digit(s[|s| - 1]).value
  }

  lemma {:induction false} ValueBound(s: string)
    requires AllDigits(s)
    ensures Value(s) < Power(16, |s|)
  {
    if s != [] {
      ValueBound(s[..|s| - 1]);
    }
  }

  // The last n hexadecimal digits of v.
  function PrintHex(v: nat, n: nat): (s: string)
    ensures |s| == n && AllDigits(s)
  {
    if n == 0 then [] else PrintHex(v / 16, n - 1) + [HexChar(v % 16)]
  }

  lemma {:induction false} PrintHexValue(v: nat, n: nat)
    requires v < Power(16, n)
    ensures Value(PrintHex(v, n)) == v
  {
    if n > 0 {
      PrintHexValue(v / 16, n - 1);
      var s := PrintHex(v, n);
      assert s[..n - 1] == PrintHex(v / 16, n - 1);
    }
  }

  // ---- Layout ----

  // The next multiple of four.
  function Padded(n: nat): (r: nat)
    ensures r % 4 == 0 && n <= r < n + 4
  {
    (n + 3) / 4 * 4
  }

  datatype Entry = Entry(name: string, data: string)

  ghost predicate HexField(img: string, at: nat, v: nat) {
    at + 8 <= |img| && AllDigits(img[at..at + 8]) && Value(img[at..at + 8]) == v
  }

  ghost predicate NameAt(img: string, at: nat, name: string) {
    at + |name| < |img| && img[at..at + |name|] == name && img[at + |name|] == NUL
  }

  function DataAt(p: nat, e: Entry): nat {
    p + Padded(HEADER + |e.name| + 1)
  }

  function Next(p: nat, e: Entry): nat {
    DataAt(p, e) + Padded(|e.data|)
  }

  // Entry e lies at p.  Nothing is said of the header's other fields and of the padding.
  ghost predicate Layout(img: string, p: nat, e: Entry) {
    && Next(p, e) <= |img|
    && img[p..p + 6] == MAGIC
    && HexField(img, p + FILESIZE_AT, |e.data|)
    && HexField(img, p + NAMESIZE_AT, |e.name| + 1)
    && NameAt(img, p + HEADER, e.name)
    && img[DataAt(p, e)..DataAt(p, e) + |e.data|] == e.data
  }

  // The entries lie one after the other from p, with the trailer behind them.
  ghost predicate Archive(img: string, p: nat, es: seq<Entry>)
    decreases |es|
  {
    if es == [] then Layout(img, p, Entry(TRAILER, []))
    else Layout(img, p, es[0]) && Archive(img, Next(p, es[0]), es[1..])
  }

  // ---- Writing an archive ----

  function Fill(n: nat): (s: string)
    ensures |s| == n
  {
    seq(n, _ => NUL)
  }

  // Eight-digit fields of value 0.
  function ZeroFields(k: nat): (s: string)
    ensures |s| == 8 * k && AllDigits(s)
  {
    seq(8 * k, _ => '0')
  }

  function Header(e: Entry): (s: string)
    ensures |s| == HEADER
  {
    MAGIC + ZeroFields(6) + PrintHex(|e.data|, 8) + ZeroFields(4) + PrintHex(|e.name| + 1, 8) + ZeroFields(1)
  }

  function Named(e: Entry): (s: string)
    ensures |s| == Padded(HEADER + |e.name| + 1)
  {
    Header(e) + e.name + [NUL] + Fill(Padded(HEADER + |e.name| + 1) - (HEADER + |e.name| + 1))
  }

  function Written(e: Entry): (s: string)
    ensures |s| == Next(0, e)
  {
    Named(e) + e.data + Fill(Padded(|e.data|) - |e.data|)
  }

  function Encode(es: seq<Entry>): string {
    if es == [] then Written(Entry(TRAILER, [])) else Written(es[0]) + Encode(es[1..])
  }

  // Sizes that the eight digits of a field can hold.
  predicate Sized(e: Entry) {
    |e.data| < TWO_32 && |e.name| + 1 < TWO_32
  }

  lemma Within(pre: string, mid: string, post: string, i: nat, j: nat)
    requires i <= j <= |mid|
    ensures (pre + mid + post)[|pre| + i..|pre| + j] == mid[i..j]
  {
  }

  lemma SixteenToThe8()
    ensures Power(16, 8) == TWO_32
  {
    assert Power(16, 4) == 65536;
  }

  // The header is the magic number and thirteen fields of hexadecimal digits.
  lemma HeaderDigits(e: Entry)
    ensures Header(e)[..6] == MAGIC && AllDigits(Header(e)[6..])
  {
    var size, name := PrintHex(|e.data|, 8), PrintHex(|e.name| + 1, 8);
    assert Header(e)[6..] == ZeroFields(6) + size + ZeroFields(4) + name + ZeroFields(1);
  }

  lemma HeaderFields(e: Entry)
    requires Sized(e)
    ensures HexField(Header(e), FILESIZE_AT, |e.data|) && HexField(Header(e), NAMESIZE_AT, |e.name| + 1)
  {
    SixteenToThe8();
    PrintHexValue(|e.data|, 8);
    PrintHexValue(|e.name| + 1, 8);
    HeaderSlices(PrintHex(|e.data|, 8), PrintHex(|e.name| + 1, 8));
  }

  // Where the two fields stand in a header.
  lemma HeaderSlices(size: string, name: string)
    requires |size| == 8 && |name| == 8
    ensures var h := MAGIC + ZeroFields(6) + size + ZeroFields(4) + name + ZeroFields(1);
            h[FILESIZE_AT..FILESIZE_AT + 8] == size && h[NAMESIZE_AT..NAMESIZE_AT + 8] == name
  {
    var before, between := MAGIC + ZeroFields(6), ZeroFields(4);
    assert |before| == FILESIZE_AT && |before + size + between| == NAMESIZE_AT;
    SliceAfter(before, size, between + name + ZeroFields(1));
    assert before + size + (between + name + ZeroFields(1)) == before + size + between + name + ZeroFields(1);
    SliceAfter(before + size + between, name, ZeroFields(1));
  }

  lemma SliceAfter(pre: string, mid: string, post: string)
    ensures (pre + mid + post)[|pre|..|pre| + |mid|] == mid
  {
  }

  lemma WrittenLayout(e: Entry, pre: string, post: string)
    requires Sized(e)
    ensures Layout(pre + Written(e) + post, |pre|, e)
  {
    var w := Written(e);
    var img := pre + w + post;
    HeaderFields(e);
    HeaderDigits(e);
    assert w[..HEADER] == Header(e);
    Within(pre, w, post, 0, 6);
    assert w[0..6] == Header(e)[..6];
    Within(pre, w, post, FILESIZE_AT, FILESIZE_AT + 8);
    assert w[FILESIZE_AT..FILESIZE_AT + 8] == Header(e)[FILESIZE_AT..FILESIZE_AT + 8];
    Within(pre, w, post, NAMESIZE_AT, NAMESIZE_AT + 8);
    assert w[NAMESIZE_AT..NAMESIZE_AT + 8] == Header(e)[NAMESIZE_AT..NAMESIZE_AT + 8];
    Within(pre, w, post, HEADER, HEADER + |e.name| + 1);
    NameWritten(e, img, |pre|);
    Within(pre, w, post, DataAt(0, e), DataAt(0, e) + |e.data|);
  }

  lemma NameWritten(e: Entry, img: string, p: nat)
    requires p + HEADER + |e.name| + 1 <= |img|
    requires img[p + HEADER..p + HEADER + |e.name| + 1] == Written(e)[HEADER..HEADER + |e.name| + 1]
    ensures NameAt(img, p + HEADER, e.name)
  {
    var s := img[p + HEADER..p + HEADER + |e.name| + 1];
    assert s == e.name + [NUL];
    assert s[..|e.name|] == e.name;
    assert img[p + HEADER..p + HEADER + |e.name|] == s[..|e.name|];
    assert img[p + HEADER + |e.name|] == s[|e.name|];
  }

  lemma Associative(a: string, b: string, c: string)
    ensures a + b + c == a + (b + c)
  {
  }

  // What is written is an archive of what was to be written.
  lemma {:induction false} EncodeIsArchive(es: seq<Entry>, pre: string, img: string)
    requires forall i :: 0 <= i < |es| ==> Sized(es[i])
    requires img == pre + Encode(es)
    ensures Archive(img, |pre|, es)
    decreases |es|
  {
    if es == [] {
      WrittenLayout(Entry(TRAILER, []), pre, []);
      assert pre + Encode(es) + [] == img;
    } else {
      Associative(pre, Written(es[0]), Encode(es[1..]));
      WrittenLayout(es[0], pre, Encode(es[1..]));
      EncodeIsArchive(es[1..], pre + Written(es[0]), img);
      Unrolled(img, |pre|, es, |pre + Written(es[0])|);
    }
  }

  lemma Unrolled(img: string, p: nat, es: seq<Entry>, next: nat)
    requires es != [] && Layout(img, p, es[0]) && next == Next(p, es[0]) && Archive(img, next, es[1..])
    ensures Archive(img, p, es)
  {
  }
}
