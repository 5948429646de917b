/**
 Physical memory byte by byte: the words of `Tables` are stored little-endian.
 */
module PhysicalBytes {
  import opened Prelude
  import opened PageWords
  import opened PageTables

  function GetByte(w: nat, k: nat): (b: nat)
    ensures b < 256
  {
    if k == 0 then w % 256 else GetByte(w / 256, k - 1)
  }

  function SetByte(w: nat, k: nat, b: nat): nat {
    if k == 0 then w / 256 * 256 + b else SetByte(w / 256, k - 1, b) * 256 + w % 256
  }

  lemma {:induction false} GetSetByte(w: nat, k: nat, b: nat, j: nat)
    requires b < 256
    ensures GetByte(SetByte(w, k, b), j) == if j == k then b else GetByte(w, j)
  {
    if k == 0 {
      assert (w / 256 * 256 + b) % 256 == b && (w / 256 * 256 + b) / 256 == w / 256;
    } else {
      var x := SetByte(w / 256, k - 1, b);
      assert (x * 256 + w % 256) % 256 == w % 256 && (x * 256 + w % 256) / 256 == x;
      if j > 0 {
        GetSetByte(w / 256, k - 1, b, j - 1);
      }
    }
  }

  lemma {:induction false} ZeroBytes(k: nat)
    ensures GetByte(0, k) == 0
  {
    if k > 0 {
      ZeroBytes(k - 1);
    }
  }

  // The place of byte number `off` of a page.
  function WordIndex(off: nat): Index
    requires off < PAGE_SIZE
  {
    off / 8
  }

  function PageByte(tab: Tables, f: nat, off: nat): nat
    requires off < PAGE_SIZE
  {
    GetByte(Entry(tab, f, WordIndex(off)), off % 8)
  }

  function PutPageByte(tab: Tables, f: nat, off: nat, b: nat): Tables
    requires off < PAGE_SIZE && f in tab && |tab[f]| == 512
  {
    Put(tab, f, WordIndex(off), SetByte(Entry(tab, f, WordIndex(off)), off % 8, b))
  }

  lemma PutPageByteEffect(tab: Tables, f: nat, off: nat, b: nat, g: nat, o: nat)
    requires off < PAGE_SIZE && o < PAGE_SIZE && f in tab && |tab[f]| == 512 && b < 256
    ensures PageByte(PutPageByte(tab, f, off, b), g, o) == if g == f && o == off then b else PageByte(tab, g, o)
  {
    var e := Entry(tab, f, WordIndex(off));
    GetSetByte(e, off % 8, b, o % 8);
  }

  lemma ZeroPageBytes(tab: Tables, f: nat, off: nat)
    requires off < PAGE_SIZE && f in tab && tab[f] == ZeroPage()
    ensures PageByte(tab, f, off) == 0
  {
    ZeroBytes(off % 8);
  }

  // What a program reads at a virtual address of its space.
  function ReadByte(tab: Tables, root: nat, va: nat): Option<nat> {
    match Lookup(tab, root, PageOf(va))
    case None => None
    case Some(l) => Some(PageByte(tab, l.frame, va % PAGE_SIZE))
  }
}
