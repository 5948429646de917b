/** cpio_lookup: the walk over the archive, header by header. */
module CpioLookup {
  import opened Prelude
  import opened CpioFormat

  // Stray: the walk reads beyond the image.
  datatype Result = Absent | File(at: nat, size: nat) | Stray

  // ---- cpio_parse_hex ----

  // Digits up to the first character that is none, accumulated in 32 bits.
  function HexFrom(img: string, at: nat, len: nat, acc: nat): (v: Option<nat>)
    decreases len, |img|
  {
    if len == 0 then Some(acc)
    else if at >= |img| then None
    else
      match Digit(img[at])
      case None => Some(acc)
      case Some(d) => HexFrom(img, at + 1, len - 1, (acc * 16 + d) % TWO_32)
  }

  method ParseHex(img: string, at: nat, len: nat) returns (v: Option<nat>)
    ensures v == HexFrom(img, at, len, 0)
  {
    var result: nat := 0;
    var i := 0;
    while i < len
      invariant i <= len && HexFrom(img, at, len, 0) == HexFrom(img, at + i, len - i, result)
    {
      if at + i >= |img| {
        return None;
      }
      var d := Digit(img[at + i]);
      if d.None? {
        return Some(result);
      }
      result := (result * 16 + d.value) % TWO_32;
      i := i + 1;
    }
    return Some(result);
  }

  lemma {:induction false} PowerBelow(k: nat)
    requires k <= 8
    ensures Power(16, k) <= TWO_32
    decreases 8 - k
  {
    if k == 8 {
      SixteenToThe8();
    } else {
      PowerBelow(k + 1);
    }
  }

  lemma {:induction false} ParsesRest(img: string, at: nat, s: string, k: nat)
    requires k <= |s| <= 8 && at + |s| <= |img| && s == img[at..at + |s|] && AllDigits(s)
    ensures HexFrom(img, at + k, |s| - k, Value(s[..k])) == Some(Value(s))
    decreases |s| - k
  {
    if k == |s| {
      assert s[..k] == s;
    } else {
      assert img[at + k] == s[k];
      ParsesDigit(img, at + k, s, k);
      ParsesRest(img, at, s, k + 1);
    }
  }

  lemma ParsesDigit(img: string, at: nat, s: string, k: nat)
    requires k < |s| <= 8 && AllDigits(s) && at < |img| && img[at] == s[k]
    ensures HexFrom(img, at, |s| - k, Value(s[..k])) == HexFrom(img, at + 1, |s| - k - 1, Value(s[..k + 1]))
  {
    NextDigit(s, k);
    HexOneMore(img, at, |s| - k, Value(s[..k]), Digit(s[k]).value);
  }

  lemma HexOneMore(img: string, at: nat, len: nat, acc: nat, d: nat)
    requires at < |img| && 0 < len && Digit(img[at]) == Some(d)
    ensures HexFrom(img, at, len, acc) == HexFrom(img, at + 1, len - 1, (acc * 16 + d) % TWO_32)
  {
  }

  lemma NextDigit(s: string, k: nat)
    requires k < |s| <= 8 && AllDigits(s)
    ensures (Value(s[..k]) * 16 + Digit(s[k]).value) % TWO_32 == Value(s[..k + 1])
  {
    var t := s[..k + 1];
    assert t[..k] == s[..k] && t[k] == s[k];
    ValueFits(t);
  }

  lemma ValueFits(s: string)
    requires AllDigits(s) && |s| <= 8
    ensures Value(s) % TWO_32 == Value(s)
  {
    ValueBound(s);
    PowerBelow(|s|);
  }

  // cpio_parse_hex reads back every 32-bit number printed in eight digits.
  lemma ParseInvertsPrint(v: nat, pre: string, post: string)
    requires v < TWO_32
    ensures HexFrom(pre + PrintHex(v, 8) + post, |pre|, 8, 0) == Some(v)
  {
    var img := pre + PrintHex(v, 8) + post;
    SixteenToThe8();
    PrintHexValue(v, 8);
    assert img[|pre|..|pre| + 8] == PrintHex(v, 8);
    ParsesField(img, |pre|, v);
  }

  lemma ParsesField(img: string, at: nat, v: nat)
    requires HexField(img, at, v)
    ensures HexFrom(img, at, 8, 0) == Some(v)
  {
    ParsesRest(img, at, img[at..at + 8], 0);
  }

  // ---- strcmp and strncmp, as far as they tell equal from different ----

  // The string at `at` and the C string s.
  function Same(img: string, at: nat, s: string): Option<bool>
    decreases |s|, |img|
  {
    if at >= |img| then None
    else if img[at] == NUL then Some(s == [])
    else if s == [] || img[at] != s[0] then Some(false)
    else Same(img, at + 1, s[1..])
  }

  method StrCmp(img: string, at: nat, s: string) returns (r: Option<bool>)
    requires NulFree(s)
    ensures r == Same(img, at, s)
  {
    var i := 0;
    while at + i < |img| && img[at + i] != NUL && i < |s| && img[at + i] == s[i]
      invariant i <= |s| && Same(img, at, s) == Same(img, at + i, s[i..])
    {
      i := i + 1;
    }
    if at + i >= |img| {
      return None;
    }
    return Some(img[at + i] == if i < |s| then s[i] else NUL);
  }

  lemma {:induction false} SameNames(img: string, at: nat, name: string, s: string)
    requires NameAt(img, at, name) && NulFree(name) && NulFree(s)
    ensures Same(img, at, s) == Some(name == s)
    decreases |s|
  {
    assert name != [] ==> img[at] == img[at..at + |name|][0];
    if name != [] && s != [] && name[0] == s[0] {
      assert img[at + 1..at + |name|] == img[at..at + |name|][1..];
      SameNames(img, at + 1, name[1..], s[1..]);
      assert name == [name[0]] + name[1..] && s == [s[0]] + s[1..];
    }
  }

  function Begins(img: string, at: nat, s: string): Option<bool>
    decreases |s|, |img|
  {
    if s == [] then Some(true)
    else if at >= |img| then None
    else if img[at] != s[0] then Some(false)
    else Begins(img, at + 1, s[1..])
  }

  method StrNCmp(img: string, at: nat, s: string) returns (r: Option<bool>)
    requires NulFree(s)
    ensures r == Begins(img, at, s)
  {
    var i := 0;
    while i < |s|
      invariant i <= |s| && Begins(img, at, s) == Begins(img, at + i, s[i..])
    {
      if at + i >= |img| {
        return None;
      }
      if img[at + i] == NUL || img[at + i] != s[i] {
        return Some(false);
      }
      i := i + 1;
    }
    return Some(true);
  }

  lemma {:induction false} BeginsWith(img: string, at: nat, s: string)
    requires at + |s| <= |img| && img[at..at + |s|] == s
    ensures Begins(img, at, s) == Some(true)
    decreases |s|
  {
    if s != [] {
      assert img[at] == img[at..at + |s|][0];
      assert img[at + 1..at + |s|] == img[at..at + |s|][1..];
      BeginsWith(img, at + 1, s[1..]);
    }
  }

  lemma {:induction false} BegunLength(img: string, at: nat, s: string)
    requires Begins(img, at, s) == Some(true)
    ensures s != [] ==> at + |s| <= |img|
    decreases |s|
  {
    if s != [] {
      BegunLength(img, at + 1, s[1..]);
    }
  }

  // ---- cpio_lookup ----

  // (filesize + 3) & ~3 in uint32_t
  function Padded32(n: nat): nat {
    (n + 3) % TWO_32 / 4 * 4
  }

  // What one turn of the loop comes to.
  datatype Turn = Stop(result: Result) | Go(next: nat)

  function TurnAt(img: string, p: nat, path: string): (t: Turn)
    ensures t.Go? ==> p < t.next && p < |img|
  {
    match Begins(img, p, MAGIC)
    case None => Stop(Stray)
    case Some(false) => Stop(Absent)
    case Some(true) =>
      BegunLength(img, p, MAGIC);
      match HexFrom(img, p + NAMESIZE_AT, 8, 0)
      case None => Stop(Stray)
      case Some(namesize) =>
        match HexFrom(img, p + FILESIZE_AT, 8, 0)
        case None => Stop(Stray)
        case Some(filesize) =>
          match Same(img, p + HEADER, TRAILER)
          case None => Stop(Stray)
          case Some(true) => Stop(Absent)
          case Some(false) =>
            match Same(img, p + HEADER, path)
            case None => Stop(Stray)
            case Some(true) => Stop(File(p + Padded(HEADER + namesize), filesize))
            case Some(false) => Go(p + Padded(HEADER + namesize) + Padded32(filesize))
  }

  function Find(img: string, p: nat, path: string): Result
    decreases if p <= |img| then |img| - p else 0
  {
    match TurnAt(img, p, path)
    case Stop(r) => r
    case Go(next) => Find(img, next, path)
  }

  method TakeTurn(img: string, ptr: nat, path: string) returns (t: Turn)
    requires NulFree(path)
    ensures t == TurnAt(img, ptr, path)
  {
    var magic := StrNCmp(img, ptr, MAGIC);
    if magic.None? { return Stop(Stray); }
    if !magic.value { return Stop(Absent); }
    var namesize := ParseHex(img, ptr + NAMESIZE_AT, 8);
    if namesize.None? { return Stop(Stray); }
    var filesize := ParseHex(img, ptr + FILESIZE_AT, 8);
    if filesize.None? { return Stop(Stray); }
    var last := StrCmp(img, ptr + HEADER, TRAILER);
    if last.None? { return Stop(Stray); }
    if last.value { return Stop(Absent); }
    var data := ptr + Padded(HEADER + namesize.value);
    var found := StrCmp(img, ptr + HEADER, path);
    if found.None? { return Stop(Stray); }
    if found.value { return Stop(File(data, filesize.value)); }
    return Go(data + Padded32(filesize.value));
  }

  // The module may be missing; the path is a C string.
  method Lookup(mod: Option<string>, path: string) returns (r: Result)
    requires NulFree(path)
    ensures r == if mod.None? then Absent else Find(mod.value, 0, path)
  {
    if mod.None? {
      return Absent;
    }
    var img := mod.value;
    var ptr := 0;
    while true
      invariant Find(img, 0, path) == Find(img, ptr, path)
      decreases if ptr <= |img| then |img| - ptr else 0
    {
      var turn := TakeTurn(img, ptr, path);
      if turn.Stop? {
        return turn.result;
      }
      ptr := turn.next;
    }
  }

  // ---- On an archive ----

  // The 32-bit padding is the padding of the format exactly for sizes up to 2^32 - 4.
  lemma PaddingWraps(n: nat)
    requires n < TWO_32
    ensures Padded32(n) == Padded(n) <==> n <= TWO_32 - 4
  {
  }

  predicate Proper(e: Entry) {
    NulFree(e.name) && e.name != TRAILER
  }

  // One entry: the lookup stops at it exactly when it has the name, and otherwise goes on; it goes on at
  // the next entry exactly when the size does not wrap.
  lemma AtEntry(img: string, p: nat, e: Entry, path: string)
    requires Layout(img, p, e) && Proper(e) && NulFree(path)
    ensures TurnAt(img, p, path) == if e.name == path then Stop(File(DataAt(p, e), |e.data|))
                                    else Go(DataAt(p, e) + Padded32(|e.data|))
  {
    BeginsWith(img, p, MAGIC);
    ParsesField(img, p + NAMESIZE_AT, |e.name| + 1);
    ParsesField(img, p + FILESIZE_AT, |e.data|);
    SameNames(img, p + HEADER, e.name, TRAILER);
    SameNames(img, p + HEADER, e.name, path);
  }

  lemma AtTrailer(img: string, p: nat, path: string)
    requires Layout(img, p, Entry(TRAILER, []))
    ensures TurnAt(img, p, path) == Stop(Absent)
  {
    BeginsWith(img, p, MAGIC);
    ParsesField(img, p + NAMESIZE_AT, |TRAILER| + 1);
    ParsesField(img, p + FILESIZE_AT, 0);
    SameNames(img, p + HEADER, TRAILER, TRAILER);
  }

  // The index of the first entry with the name, or |es|.
  function First(es: seq<Entry>, path: string): (i: nat)
    ensures i <= |es| && (i < |es| ==> es[i].name == path) && forall j :: 0 <= j < i ==> es[j].name != path
  {
    if es == [] then 0 else if es[0].name == path then 0 else 1 + First(es[1..], path)
  }

  // Where that entry's data is in an archive at p.
  function Listed(p: nat, es: seq<Entry>, path: string): Result
    decreases |es|
  {
    if es == [] then Absent
    else if es[0].name == path then File(DataAt(p, es[0]), |es[0].data|)
    else Listed(Next(p, es[0]), es[1..], path)
  }

  // The entries up to the one looked for are proper, and none before it is too large to pass over.
  predicate Passable(es: seq<Entry>, path: string) {
    forall i :: 0 <= i < |es| && i <= First(es, path) ==>
      Proper(es[i]) && (i < First(es, path) ==> |es[i].data| <= TWO_32 - 4)
  }

  lemma PassableRest(es: seq<Entry>, path: string)
    requires es != [] && es[0].name != path && Passable(es, path)
    ensures Passable(es[1..], path)
  {
    forall i | 0 <= i < |es[1..]| && i <= First(es[1..], path)
      ensures Proper(es[1..][i]) && (i < First(es[1..], path) ==> |es[1..][i].data| <= TWO_32 - 4)
    {
      assert es[1..][i] == es[i + 1];
    }
  }

  lemma PassesEntry(img: string, p: nat, e: Entry, path: string)
    requires Layout(img, p, e) && Proper(e) && NulFree(path) && e.name != path && |e.data| <= TWO_32 - 4
    ensures TurnAt(img, p, path) == Go(Next(p, e))
  {
    AtEntry(img, p, e, path);
    PaddingWraps(|e.data|);
  }

  lemma {:induction false} FindIsListed(img: string, p: nat, es: seq<Entry>, path: string)
    requires Archive(img, p, es) && NulFree(path) && Passable(es, path)
    ensures Find(img, p, path) == Listed(p, es, path)
    decreases |es|
  {
    if es == [] {
      AtTrailer(img, p, path);
    } else {
      if es[0].name == path {
        AtEntry(img, p, es[0], path);
      } else {
        PassesEntry(img, p, es[0], path);
        PassableRest(es, path);
        FindIsListed(img, Next(p, es[0]), es[1..], path);
      }
    }
  }

  // r is the file number i of es, or no file if there is no such number.
  ghost predicate Gives(img: string, r: Result, es: seq<Entry>, i: nat) {
    if i >= |es| then r == Absent
    else r.File? && r.at + r.size <= |img| && img[r.at..r.at + r.size] == es[i].data
  }

  lemma {:induction false} ListedGives(img: string, p: nat, es: seq<Entry>, path: string)
    requires Archive(img, p, es)
    ensures Gives(img, Listed(p, es, path), es, First(es, path))
    decreases |es|
  {
    if es != [] && es[0].name != path {
      ListedGives(img, Next(p, es[0]), es[1..], path);
    }
  }

  // For any archive: the lookup gives the place and the size of the first entry with the name, with its
  // data there, and no file if there is none.
  lemma FindIsFirst(img: string, p: nat, es: seq<Entry>, path: string)
    requires Archive(img, p, es) && NulFree(path) && Passable(es, path)
    ensures Gives(img, Find(img, p, path), es, First(es, path))
  {
    FindIsListed(img, p, es, path);
    ListedGives(img, p, es, path);
  }

  // What is looked up in a written archive is what was written.
  lemma LookupInvertsEncode(es: seq<Entry>, path: string)
    requires NulFree(path) && Passable(es, path) && forall i :: 0 <= i < |es| ==> Sized(es[i])
    ensures Gives(Encode(es), Find(Encode(es), 0, path), es, First(es, path))
  {
    EncodeIsArchive(es, [], Encode(es));
    FindIsFirst(Encode(es), 0, es, path);
  }
}
