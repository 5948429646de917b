/**
 The console from key press to SYS_READ: keys go through the keyboard's ring and the line editor, and
 whatever the order of presses and reads, the texts read are the lines that the accepted keys make up.
 */
module Console {
  import opened KeyboardRing
  import opened LineEditor

  // A key arrives, or a program asks for a line.  A call that finds no newline goes on waiting: it is asked again.
  datatype Event = Press(c: char) | Ask(fd: nat, count: nat)

  // The line so far, the unread keys, all keys accepted, and the texts read with the sizes asked for.
  datatype State = State(line: string, pending: string, accepted: string, texts: seq<string>, counts: seq<nat>)

  // A key is dropped exactly when 127 are unread.
  function Serve(d: State, e: Event): State {
    match e
    case Press(c) =>
      if |d.pending| < SIZE - 1 then d.(pending := d.pending + [c], accepted := d.accepted + [c]) else d
    case Ask(fd, count) =>
      var n := Newline(d.pending);
      if fd != 0 || count == 0 then d
      else if n == |d.pending| then d.(line := Fold(d.line, d.pending), pending := [])
      else
        d.(line := [], pending := d.pending[n + 1..],
           texts := d.texts + [Cut(Fold(d.line, d.pending[..n]), count)], counts := d.counts + [count])
  }

  function Serves(d: State, evs: seq<Event>): State {
    if evs == [] then d else Serve(Serves(d, evs[..|evs| - 1]), evs[|evs| - 1])
  }

  // ---- The texts are the lines of the accepted keys ----

  // The keys, typed after `first`, have given the texts, and then the line.
  ghost predicate Eaten(keys: string, first: string, line: string, texts: seq<string>, counts: seq<nat>)
    decreases |counts|
  {
    var n := Newline(keys);
    if counts == [] then n == |keys| && line == Fold(first, keys) && texts == []
    else
      && n < |keys| && texts != [] && texts[0] == Cut(Fold(first, keys[..n]), counts[0])
      && Eaten(keys[n + 1..], [], line, texts[1..], counts[1..])
  }

  // The place of a newline is not moved by what comes after it.
  lemma NewlineIsFirst(keys: string, n: nat)
    requires n <= |keys| && (n < |keys| ==> keys[n] == '\n') && forall i :: 0 <= i < n ==> keys[i] != '\n'
    ensures Newline(keys) == n
  {
  }

  // What follows a newline does not touch what stands before it.
  lemma NewlineOfSum(keys: string, more: string)
    ensures var n, all := Newline(keys), keys + more;
            if n < |keys| then Newline(all) == n && all[..n] == keys[..n] && all[n + 1..] == keys[n + 1..] + more
            else Newline(all) == n + Newline(more)
  {
    var n, all := Newline(keys), keys + more;
    if n < |keys| {
      NewlineIsFirst(all, n);
    } else {
      NewlineIsFirst(all, n + Newline(more));
    }
  }

  lemma {:induction false} EatKeys(keys: string, first: string, line: string, texts: seq<string>, counts: seq<nat>, more: string)
    requires Eaten(keys, first, line, texts, counts) && Newline(more) == |more|
    ensures Eaten(keys + more, first, Fold(line, more), texts, counts)
    decreases |counts|
  {
    NewlineOfSum(keys, more);
    if counts == [] {
      FoldSplits(first, keys, more);
    } else {
      EatKeys(keys[Newline(keys) + 1..], [], line, texts[1..], counts[1..], more);
    }
  }

  lemma {:induction false} EatLine(keys: string, first: string, line: string, texts: seq<string>, counts: seq<nat>, count: nat)
    requires Eaten(keys, first, line, texts, counts)
    ensures Eaten(keys + ['\n'], first, [], texts + [Cut(line, count)], counts + [count])
    decreases |counts|
  {
    NewlineOfSum(keys, ['\n']);
    if counts == [] {
      LastLine(keys, first, line, count);
      assert texts + [Cut(line, count)] == [Cut(line, count)] && counts + [count] == [count];
    } else {
      EatLine(keys[Newline(keys) + 1..], [], line, texts[1..], counts[1..], count);
      assert (texts + [Cut(line, count)])[1..] == texts[1..] + [Cut(line, count)];
      assert (counts + [count])[1..] == counts[1..] + [count];
    }
  }

  lemma LastLine(keys: string, first: string, line: string, count: nat)
    requires Newline(keys) == |keys| && line == Fold(first, keys)
    ensures Eaten(keys + ['\n'], first, [], [Cut(line, count)], [count])
  {
    var all := keys + ['\n'];
    NewlineIsFirst(all, |keys|);
    assert all[..|keys|] == keys && all[|keys| + 1..] == [];
    assert [Cut(line, count)][1..] == [] && [count][1..] == [];
  }

  lemma {:induction false} EatenIsRead(keys: string, first: string, line: string, texts: seq<string>, counts: seq<nat>, rest: string)
    requires Eaten(keys, first, line, texts, counts)
    ensures Reads(first, keys + rest, counts) == texts
    decreases |counts|
  {
    if counts != [] {
      NewlineOfSum(keys, rest);
      EatenIsRead(keys[Newline(keys) + 1..], [], line, texts[1..], counts[1..], rest);
    }
  }

  // Of the accepted keys, the first have been eaten and the rest are unread.
  ghost predicate Sound(d: State, eaten: string) {
    d.accepted == eaten + d.pending && |d.pending| < SIZE && Eaten(eaten, [], d.line, d.texts, d.counts)
  }

  // A read that finds a newline eats the line and the newline.
  lemma ReadEats(d: State, eaten: string, count: nat)
    requires Sound(d, eaten)
    ensures var typed := d.pending[..Newline(d.pending)];
            Eaten(eaten + typed + ['\n'], [], [], d.texts + [Cut(Fold(d.line, typed), count)], d.counts + [count])
  {
    var typed := d.pending[..Newline(d.pending)];
    NewlineIsFirst(typed, |typed|);
    EatKeys(eaten, [], d.line, d.texts, d.counts, typed);
    EatLine(eaten + typed, [], Fold(d.line, typed), d.texts, d.counts, count);
  }

  lemma SplitAt(eaten: string, keys: string, n: nat)
    requires n < |keys|
    ensures eaten + keys == eaten + keys[..n] + [keys[n]] + keys[n + 1..]
  {
    assert keys == keys[..n] + [keys[n]] + keys[n + 1..];
  }

  lemma PressKeepsSound(d: State, eaten: string, c: char)
    requires Sound(d, eaten)
    ensures Sound(Serve(d, Press(c)), eaten)
  {
    assert eaten + (d.pending + [c]) == eaten + d.pending + [c];
  }

  lemma WaitKeepsSound(d: State, eaten: string)
    requires Sound(d, eaten) && Newline(d.pending) == |d.pending|
    ensures Sound(d.(line := Fold(d.line, d.pending), pending := []), eaten + d.pending)
  {
    EatKeys(eaten, [], d.line, d.texts, d.counts, d.pending);
    assert eaten + d.pending + [] == eaten + d.pending;
  }

  lemma LineKeepsSound(d: State, eaten: string, n: nat, count: nat)
    requires Sound(d, eaten) && n == Newline(d.pending) < |d.pending|
    ensures Sound(d.(line := [], pending := d.pending[n + 1..], texts := d.texts + [Cut(Fold(d.line, d.pending[..n]), count)],
                     counts := d.counts + [count]),
                  eaten + d.pending[..n] + ['\n'])
  {
    ReadEats(d, eaten, count);
    SplitAt(eaten, d.pending, n);
  }

  lemma ServeKeepsSound(d: State, eaten: string, e: Event) returns (eaten': string)
    requires Sound(d, eaten)
    ensures Sound(Serve(d, e), eaten')
  {
    eaten' := eaten;
    match e
    case Press(c) => PressKeepsSound(d, eaten, c);
    case Ask(fd, count) =>
      var n := Newline(d.pending);
      if fd == 0 && count != 0 {
        if n == |d.pending| {
          WaitKeepsSound(d, eaten);
          eaten' := eaten + d.pending;
        } else {
          LineKeepsSound(d, eaten, n, count);
          eaten' := eaten + d.pending[..n] + ['\n'];
        }
      }
  }

  lemma {:induction false} RunIsSound(evs: seq<Event>) returns (eaten: string)
    ensures Sound(Serves(State([], [], [], [], []), evs), eaten)
  {
    eaten := [];
    if evs != [] {
      var before := RunIsSound(evs[..|evs| - 1]);
      eaten := ServeKeepsSound(Serves(State([], [], [], [], []), evs[..|evs| - 1]), before, evs[|evs| - 1]);
    }
  }

  // However presses and reads alternate, the texts read are those of the lines of the keys accepted.
  lemma TextsAreLines(evs: seq<Event>)
    ensures var d := Serves(State([], [], [], [], []), evs); d.texts == Reads([], d.accepted, d.counts)
  {
    var d := Serves(State([], [], [], [], []), evs);
    var eaten := RunIsSound(evs);
    EatenIsRead(eaten, [], d.line, d.texts, d.counts, d.pending);
  }

  // ---- The drivers ----

  // One event on the ring and the line buffer.
  method Handle(kbd: Keyboard, term: Terminal, e: Event, ghost d: State) returns (r: Outcome)
    requires kbd.Valid() && term.Valid() && term.lineBuffer != kbd.slots
    requires kbd.Contents() == d.pending && term.Line() == d.line
    modifies kbd`head, kbd`tail, kbd.slots, term`linePos, term.lineBuffer
    ensures kbd.Valid() && term.Valid() && kbd.Contents() == Serve(d, e).pending && term.Line() == Serve(d, e).line
    ensures Serve(d, e).texts == d.texts + if r.Done? then [r.text] else []
  {
    match e
    case Press(c) =>
      kbd.Push(c);
      r := Waiting;
    case Ask(fd, count) =>
      r := term.Read(fd, count, kbd);
  }

  // Any events, from an empty ring and an empty line: the texts are those of the specification, and so the lines of
  // the keys accepted.
  method Session(evs: seq<Event>) returns (texts: seq<string>)
    ensures var d := Serves(State([], [], [], [], []), evs); texts == d.texts == Reads([], d.accepted, d.counts)
  {
    var kbd := new Keyboard();
    var term := new Terminal();
    ghost var start := State([], [], [], [], []);
    texts := [];
    for i := 0 to |evs|
      invariant kbd.Valid() && term.Valid() && term.lineBuffer != kbd.slots && fresh(kbd) && fresh(term)
      invariant fresh(kbd.slots) && fresh(term.lineBuffer)
      invariant kbd.Contents() == Serves(start, evs[..i]).pending && term.Line() == Serves(start, evs[..i]).line
      invariant texts == Serves(start, evs[..i]).texts
    {
      var r := Handle(kbd, term, evs[i], Serves(start, evs[..i]));
      assert evs[..i + 1][..i] == evs[..i];
      texts := texts + if r.Done? then [r.text] else [];
    }
    assert evs[..|evs|] == evs;
    TextsAreLines(evs);
  }
}
