/**
 SYS_READ: keys are edited into a line until newline, which hands the line to the reader.  The line is
 static, so it outlives the call and whatever keys have come so far.
 */
module LineEditor {
  import opened KeyboardRing

  const CAPACITY: nat := 256  // sizeof(line_buffer)

  // Backspace and delete.
  predicate Erases(c: char) {
    c == 8 as char || c == 127 as char
  }

  predicate Printable(c: char) {
    32 as char <= c <= 126 as char
  }

  // One key other than newline.
  function Edit(line: string, c: char): (r: string)
    ensures |line| < CAPACITY ==> |r| < CAPACITY
  {
    if Erases(c) then if line == [] then [] else line[..|line| - 1]
    else if Printable(c) && |line| < CAPACITY - 1 then line + [c]
    else line
  }

  function Fold(line: string, keys: string): (r: string)
    ensures |line| < CAPACITY ==> |r| < CAPACITY
  {
    if keys == [] then line else Edit(Fold(line, keys[..|keys| - 1]), keys[|keys| - 1])
  }

  // It makes no difference how the keys are spread over calls.
  lemma {:induction false} FoldSplits(line: string, a: string, b: string)
    ensures Fold(Fold(line, a), b) == Fold(line, a + b)
  {
    if b == [] {
      assert a + b == a;
    } else {
      FoldSplits(line, a, b[..|b| - 1]);
      assert (a + b)[..|a + b| - 1] == a + b[..|b| - 1];
    }
  }

  // An erase undoes a printable key exactly when the line had room for the key.
  lemma EraseUndoes(line: string, c: char, erase: char)
    requires |line| < 256 && Printable(c) && Erases(erase)
    ensures Edit(Edit(line, c), erase) == line <==> |line| < 255
  {
    if |line| < 255 {
      assert (line + [c])[..|line|] == line;
    }
  }

  // Keys that are all printable and fit stand in the line as they were typed.
  lemma {:induction false} FoldKeepsText(line: string, text: string)
    requires |line| + |text| < 256 && forall i :: 0 <= i < |text| ==> ' ' <= text[i] <= '~'
    ensures Fold(line, text) == line + text
  {
    if text == [] {
      assert line + text == line;
    } else {
      FoldKeepsText(line, text[..|text| - 1]);
      assert line + text == line + text[..|text| - 1] + [text[|text| - 1]];
    }
  }

  // ---- Which keys stand in the line ----

  // The length of a line of n characters after the keys: an erase takes one away, a printing key adds one up to 255,
  // any other key does nothing.
  function Height(n: nat, keys: string): nat {
    if keys == [] then n
    else
      var h, c := Height(n, keys[..|keys| - 1]), keys[|keys| - 1];
      if c == '\U{8}' || c == '\U{7F}' then (if h == 0 then 0 else h - 1)
      else if ' ' <= c <= '~' && h < 255 then h + 1
      else h
  }

  lemma HeightOneMore(line: string, keys: string)
    requires keys != [] && |line| < 256 && |Fold(line, keys[..|keys| - 1])| == Height(|line|, keys[..|keys| - 1])
    ensures |Fold(line, keys)| == Height(|line|, keys)
  {
  }

  // Place p of the line has the key after which the line was last longer than p, if it ever was shorter ...
  lemma {:induction false} StandsSince(line: string, keys: string, p: nat, k: nat)
    requires |line| < 256 && k < |keys| && Height(|line|, keys[..k]) <= p
    requires forall j :: k < j <= |keys| ==> p < Height(|line|, keys[..j])
    ensures |Fold(line, keys)| == Height(|line|, keys) > p && Fold(line, keys)[p] == keys[k] && ' ' <= keys[k] <= '~'
    decreases |keys|
  {
    var rest := keys[..|keys| - 1];
    assert keys[..|keys|] == keys;
    if k == |keys| - 1 {
      FoldHeight(line, rest);
    } else {
      assert forall j :: 0 <= j <= |rest| ==> rest[..j] == keys[..j];
      StandsSince(line, rest, p, k);
    }
    HeightOneMore(line, keys);
  }

  // ... and the character it had before the keys otherwise.
  lemma {:induction false} StandsUntouched(line: string, keys: string, p: nat)
    requires |line| < 256 && forall j :: 0 <= j <= |keys| ==> p < Height(|line|, keys[..j])
    ensures p < |line| && |Fold(line, keys)| == Height(|line|, keys) > p && Fold(line, keys)[p] == line[p]
    decreases |keys|
  {
    assert keys[..0] == [] && keys[..|keys|] == keys;
    if keys != [] {
      var rest := keys[..|keys| - 1];
      assert forall j :: 0 <= j <= |rest| ==> rest[..j] == keys[..j];
      StandsUntouched(line, rest, p);
      HeightOneMore(line, keys);
    }
  }

  lemma {:induction false} FoldHeight(line: string, keys: string)
    requires |line| < 256
    ensures |Fold(line, keys)| == Height(|line|, keys)
  {
    if keys != [] {
      FoldHeight(line, keys[..|keys| - 1]);
      HeightOneMore(line, keys);
    }
  }

  function Cut(line: string, count: nat): string {
    if |line| < count then line else line[..count]
  }

  // The first bytes of the line, as many as fit.
  lemma CutIsPrefix(line: string, count: nat)
    ensures var r := Cut(line, count); r <= line && |r| <= count && (r != line ==> |r| == count)
  {
  }

  // The place of the first newline, or |keys|.
  function Newline(keys: string): (n: nat)
    ensures n <= |keys| && (n < |keys| ==> keys[n] == '\n') && forall i :: 0 <= i < n ==> keys[i] != '\n'
  {
    if keys == [] || keys[0] == '\n' then 0 else 1 + Newline(keys[1..])
  }

  // ---- Many reads ----

  // What reads of the given sizes return while the keys last.
  function Reads(line: string, keys: string, counts: seq<nat>): (r: seq<string>)
    decreases |counts|
  {
    var n := Newline(keys);
    if counts == [] || n == |keys| then []
    else [Cut(Fold(line, keys[..n]), counts[0])] + Reads([], keys[n + 1..], counts[1..])
  }

  // The lines that the keys complete.
  function Lines(keys: string): (lines: seq<string>)
    decreases |keys|
  {
    var n := Newline(keys);
    if n == |keys| then [] else [keys[..n]] + Lines(keys[n + 1..])
  }

  // Lines, each with its newline.
  function Joined(lines: seq<string>): string {
    if lines == [] then [] else lines[0] + ['\n'] + Joined(lines[1..])
  }

  // They are the keys, none left out, up to the last newline.
  lemma {:induction false} LinesMakeUpKeys(keys: string) returns (tail: string)
    ensures keys == Joined(Lines(keys)) + tail && '\n' !in tail
    ensures forall i :: 0 <= i < |Lines(keys)| ==> '\n' !in Lines(keys)[i]
    decreases |keys|
  {
    var n := Newline(keys);
    tail := keys;
    if n < |keys| {
      var rest := keys[n + 1..];
      tail := LinesMakeUpKeys(rest);
      assert Lines(keys)[1..] == Lines(rest);
      Regroup(keys[..n] + ['\n'], Joined(Lines(rest)), tail);
      assert keys == keys[..n] + ['\n'] + rest;
    }
  }

  lemma Regroup(a: string, b: string, c: string)
    ensures a + (b + c) == a + b + c
  {
  }

  // There is a read for each line while there are sizes, and read number i returns the first bytes of the fold of the
  // keys of line number i, and nothing of any other line.
  lemma {:induction false} EachReadIsItsLine(line: string, keys: string, counts: seq<nat>)
    ensures var r, lines := Reads(line, keys, counts), Lines(keys);
            && (|r| == |counts| || |r| == |lines|) && |r| <= |counts| && |r| <= |lines|
            && forall i :: 0 <= i < |r| ==> r[i] == Cut(Fold(if i == 0 then line else [], lines[i]), counts[i])
    decreases |counts|
  {
    var n, r, lines := Newline(keys), Reads(line, keys, counts), Lines(keys);
    if counts != [] && n < |keys| {
      var rest := keys[n + 1..];
      EachReadIsItsLine([], rest, counts[1..]);
      var r', lines' := Reads([], rest, counts[1..]), Lines(rest);
      forall i | 0 <= i < |r|
        ensures r[i] == Cut(Fold(if i == 0 then line else [], lines[i]), counts[i])
      {
        if i > 0 {
          assert r[i] == r'[i - 1] && lines[i] == lines'[i - 1] && counts[i] == counts[1..][i - 1];
        }
      }
    }
  }

  // ---- The system call ----

  datatype Outcome = Refused | Waiting | Done(text: string)

  // The first `used` keys, none a newline, have been edited into the line, and the others are left.
  ghost predicate Edited(line: string, keys: string, used: nat, now: string, left: string) {
    used <= Newline(keys) && now == Fold(line, keys[..used]) && left == keys[used..]
  }

  lemma EditedOneMore(line: string, keys: string, used: nat)
    requires used <= Newline(keys)
    ensures if used == |keys| then keys[used..] == []
            else
              && keys[used..] != [] && keys[used..][0] == keys[used] && keys[used..][1..] == keys[used + 1..]
              && (keys[used] == '\n' <==> used == Newline(keys))
              && Fold(line, keys[..used + 1]) == Edit(Fold(line, keys[..used]), keys[used])
  {
    if used < |keys| {
      assert keys[..used + 1][..used] == keys[..used];
    }
  }

  class Terminal {
    const lineBuffer: array<char>
    var linePos: nat

    ghost predicate Valid()
      reads this
    {
      lineBuffer.Length == CAPACITY && linePos < CAPACITY
    }

    ghost function Line(): (s: string)
      requires Valid()
      reads this, lineBuffer
    {
      lineBuffer[..linePos]
    }

    constructor ()
      ensures Valid() && Line() == [] && fresh(lineBuffer)
    {
      lineBuffer := new char[CAPACITY];
      linePos := 0;
    }

    // The characters come from the keyboard's ring; the call waits when they are used up.
    method Read(fd: nat, count: nat, kbd: Keyboard) returns (r: Outcome)
      requires Valid() && kbd.Valid() && lineBuffer != kbd.slots
      modifies this`linePos, lineBuffer, kbd`tail
      ensures Valid() && kbd.Valid()
      ensures r.Refused? <==> fd != 0 || count == 0
      ensures r.Refused? ==> Line() == old(Line()) && kbd.Contents() == old(kbd.Contents())
      ensures !r.Refused? ==> (r.Waiting? <==> Newline(old(kbd.Contents())) == |old(kbd.Contents())|)
      ensures r.Waiting? ==> Line() == Fold(old(Line()), old(kbd.Contents())) && kbd.Contents() == []
      ensures r.Done? ==>
                var keys := old(kbd.Contents());
                var n := Newline(keys);
                r.text == Cut(Fold(old(Line()), keys[..n]), count) && Line() == [] && kbd.Contents() == keys[n + 1..]
    {
      if fd != 0 || count == 0 {
        return Refused;
      }
      ghost var keys := kbd.Contents();
      var whole := EditLine(kbd);
      if !whole {
        assert keys[..|keys|] == keys;
        return Waiting;
      }
      var text := Copy(count);
      linePos := 0;
      return Done(text);
    }

    // The keys up to the next newline, or all there are, are edited into the line.
    method EditLine(kbd: Keyboard) returns (whole: bool)
      requires Valid() && kbd.Valid() && lineBuffer != kbd.slots
      modifies this`linePos, lineBuffer, kbd`tail
      ensures Valid() && kbd.Valid()
      ensures var keys := old(kbd.Contents());
              var n := Newline(keys);
              && (whole <==> n < |keys|) && Line() == Fold(old(Line()), keys[..n])
              && kbd.Contents() == if whole then keys[n + 1..] else []
    {
      ghost var keys, line, used := kbd.Contents(), Line(), 0;
      while true
        invariant Valid() && kbd.Valid() && Edited(line, keys, used, Line(), kbd.Contents())
        decreases |keys| - used
      {
        var more, newline := NextKey(kbd);
        EditedOneMore(line, keys, used);
        if !more || newline {
          return newline;
        }
        used := used + 1;
      }
    }

    // One character from the ring, typed unless it is a newline.
    method NextKey(kbd: Keyboard) returns (more: bool, newline: bool)
      requires Valid() && kbd.Valid() && lineBuffer != kbd.slots
      modifies this`linePos, lineBuffer, kbd`tail
      ensures Valid() && kbd.Valid()
      ensures var keys := old(kbd.Contents());
              if keys == [] then !more && !newline && kbd.Contents() == [] && Line() == old(Line())
              else
                && more && (newline <==> keys[0] == '\n') && kbd.Contents() == keys[1..]
                && Line() == if newline then old(Line()) else Edit(old(Line()), keys[0])
    {
      more := kbd.HasData();
      newline := false;
      if more {
        var c := kbd.Pop();
        newline := c == '\n';
        if !newline {
          Type(c);
        }
      }
    }

    method Type(c: char)
      requires Valid()
      modifies this`linePos, lineBuffer
      ensures Valid() && Line() == Edit(old(Line()), c)
    {
      if c == 8 as char || c == 127 as char {
        if linePos > 0 {
          linePos := linePos - 1;
        }
      } else if 32 as char <= c <= 126 as char {
        if linePos < CAPACITY - 1 {
          lineBuffer[linePos] := c;
          linePos := linePos + 1;
        }
      }
    }

    // The copy into the user's buffer.
    method Copy(count: nat) returns (text: string)
      requires Valid()
      ensures text == Cut(Line(), count)
    {
      var size := if linePos < count then linePos else count;
      text := [];
      for i := 0 to size
        invariant text == lineBuffer[..i]
      {
        text := text + [lineBuffer[i]];
      }
    }
  }
}
