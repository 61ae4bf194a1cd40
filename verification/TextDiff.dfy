/** The line diff shown for a proposed change. */
module TextDiff {
  import opened Text

  const NO_CHANGES := "Keine Änderungen."
  const HEADERS := ["--- before", "+++ after"]

  /** `text.split(/\r?\n/)`: a piece loses one final `\r`, except the last piece. */
  function Lines(text: string): (lines: seq<string>)
    ensures |lines| >= 1
  {
    var pieces := Split(text, "\n");
    seq(|pieces|, i requires 0 <= i < |pieces| =>
      if i < |pieces| - 1 then StripReturn(pieces[i]) else pieces[i])
  }

  function StripReturn(line: string): string {
    if line != "" && Last(line) == '\r' then Front(line) else line
  }

  /** What the diff says about line `i` of both sides. */
  function Entry(left: seq<string>, right: seq<string>, i: nat): seq<string> {
    if i < |left| && i < |right| && left[i] == right[i] then [" " + left[i]]
    else (if i < |left| then ["-" + left[i]] else []) + (if i < |right| then ["+" + right[i]] else [])
  }

  function Entries(left: seq<string>, right: seq<string>, n: nat): seq<string> {
    if n == 0 then [] else Entries(left, right, n - 1) + Entry(left, right, n - 1)
  }

  function Diff(before: string, after: string): string {
    if before == after then NO_CHANGES
    else
      var left, right := Lines(before), Lines(after);
      Join(HEADERS + Entries(left, right, if |left| >= |right| then |left| else |right|), "\n")
  }

  /** The loop over the line numbers, pushing onto the given output. */
  method PushEntries(start: seq<string>, left: seq<string>, right: seq<string>, n: nat)
    returns (output: seq<string>)
    ensures output == start + Entries(left, right, n)
  {
    output := start;
    for index := 0 to n
      invariant output == start + Entries(left, right, index)
    {
      ghost var was := output;
      if index < |left| && index < |right| && left[index] == right[index] {
        output := output + [" " + left[index]];
      } else {
        if index < |left| {
          output := output + ["-" + left[index]];
        }
        if index < |right| {
          output := output + ["+" + right[index]];
        }
      }
      assert output == was + Entry(left, right, index);
      hide Entry, Entries;
      EntriesNext(left, right, index + 1);
      Assoc(start, Entries(left, right, index), Entry(left, right, index));
    }
  }

  method CreateTextDiff(before: string, after: string) returns (diff: string)
    ensures diff == Diff(before, after)
  {
    if before == after {
      return NO_CHANGES;
    }
    var left, right := Lines(before), Lines(after);
    var output := PushEntries(HEADERS, left, right, if |left| >= |right| then |left| else |right|);
    diff := Join(output, "\n");
  }

  /** The lines kept for one side: those marked ' ' or with the side's own mark, without the mark. */
  function Side(entries: seq<string>, mark: char): seq<string> {
    if entries == [] then []
    else
      Side(Front(entries), mark)
      + (if Last(entries) != "" && Last(entries)[0] in {' ', mark} then [Last(entries)[1..]] else [])
  }

  lemma {:induction false} SideConcat(a: seq<string>, b: seq<string>, mark: char)
    ensures Side(a + b, mark) == Side(a, mark) + Side(b, mark)
    decreases |b|
  {
    if b == [] {
      assert a + b == a;
    } else {
      SideConcat(a, Front(b), mark);
      var whole := a + b;
      assert Front(whole) == a + Front(b) && Last(whole) == Last(b);
    }
  }

  lemma SideOfEntry(left: seq<string>, right: seq<string>, i: nat)
    ensures Side(Entry(left, right, i), '-') == if i < |left| then [left[i]] else []
    ensures Side(Entry(left, right, i), '+') == if i < |right| then [right[i]] else []
  {
    SideOne(' ', if i < |left| then left[i] else "");
    SideOne('-', if i < |left| then left[i] else "");
    SideOne('+', if i < |right| then right[i] else "");
    if i < |left| && i < |right| && left[i] != right[i] {
      SideConcat(["-" + left[i]], ["+" + right[i]], '-');
      SideConcat(["-" + left[i]], ["+" + right[i]], '+');
    }
  }

  lemma SideOne(c: char, line: string)
    ensures Side([[c] + line], '-') == if c in {' ', '-'} then [line] else []
    ensures Side([[c] + line], '+') == if c in {' ', '+'} then [line] else []
  {
    assert Front([[c] + line]) == [];
    assert ([c] + line)[1..] == line;
  }

  lemma {:induction false} SidesOfEntries(left: seq<string>, right: seq<string>, n: nat)
    ensures Side(Entries(left, right, n), '-') == left[..Min(n, |left|)]
    ensures Side(Entries(left, right, n), '+') == right[..Min(n, |right|)]
  {
    hide Side, Entry, Min, Entries;
    if n == 0 {
      SidesOfNone(left, right);
    } else {
      SidesOfEntries(left, right, n - 1);
      EntriesNext(left, right, n);
      SideOfEntry(left, right, n - 1);
      SideTakes(left, Entries(left, right, n - 1), Entry(left, right, n - 1), '-', n);
      SideTakes(right, Entries(left, right, n - 1), Entry(left, right, n - 1), '+', n);
    }
  }

  lemma SidesOfNone(left: seq<string>, right: seq<string>)
    ensures Side(Entries(left, right, 0), '-') == left[..Min(0, |left|)]
    ensures Side(Entries(left, right, 0), '+') == right[..Min(0, |right|)]
  {
  }

  lemma EntriesNext(left: seq<string>, right: seq<string>, n: nat)
    requires n > 0
    ensures Entries(left, right, n) == Entries(left, right, n - 1) + Entry(left, right, n - 1)
  {
  }

  lemma SideTakes(s: seq<string>, done: seq<string>, next: seq<string>, mark: char, n: nat)
    requires n > 0 && Side(done, mark) == s[..Min(n - 1, |s|)]
    requires Side(next, mark) == if n - 1 < |s| then [s[n - 1]] else []
    ensures Side(done + next, mark) == s[..Min(n, |s|)]
  {
    hide Side, Min;
    SideConcat(done, next, mark);
    TakeNext(s, n - 1, n);
  }

  lemma TakeNext(s: seq<string>, i: nat, next: nat)
    requires next == i + 1
    ensures s[..Min(next, |s|)] == s[..Min(i, |s|)] + if i < |s| then [s[i]] else []
  {
  }

  lemma LinesFree(text: string)
    ensures forall k :: 0 <= k < |Lines(text)| ==> '\n' !in Lines(text)[k]
  {
    SplitPiecesFree(text, '\n');
  }

  lemma {:induction false} EntriesFree(left: seq<string>, right: seq<string>, n: nat)
    requires forall k :: 0 <= k < |left| ==> '\n' !in left[k]
    requires forall k :: 0 <= k < |right| ==> '\n' !in right[k]
    ensures forall k :: 0 <= k < |Entries(left, right, n)| ==> '\n' !in Entries(left, right, n)[k]
  {
    if n != 0 {
      EntriesFree(left, right, n - 1);
    }
  }

  /** The printed diff, cut into lines again, holds both texts line for line. */
  lemma DiffRecovers(before: string, after: string)
    requires before != after
    ensures var printed := Split(Diff(before, after), "\n");
      && |printed| >= 2
      && printed[..2] == HEADERS
      && Side(printed[2..], '-') == Lines(before)
      && Side(printed[2..], '+') == Lines(after)
  {
    var left, right := Lines(before), Lines(after);
    LinesFree(before);
    LinesFree(after);
    hide Side, Split, Join, Entries, Lines;
    PrintedEntries(left, right, Longer(left, right));
    SidesWhole(left, right);
  }

  function Longer(left: seq<string>, right: seq<string>): nat {
    if |left| >= |right| then |left| else |right|
  }

  lemma SidesWhole(left: seq<string>, right: seq<string>)
    ensures var entries := Entries(left, right, Longer(left, right));
      Side(entries, '-') == left && Side(entries, '+') == right
  {
    SidesOfEntries(left, right, Longer(left, right));
    assert left[..|left|] == left && right[..|right|] == right;
    hide Side, Entries;
  }

  lemma PrintedEntries(left: seq<string>, right: seq<string>, n: nat)
    requires forall k :: 0 <= k < |left| ==> '\n' !in left[k]
    requires forall k :: 0 <= k < |right| ==> '\n' !in right[k]
    ensures var printed := Split(Join(HEADERS + Entries(left, right, n), "\n"), "\n");
      |printed| >= 2 && printed[..2] == HEADERS && printed[2..] == Entries(left, right, n)
  {
    var entries := Entries(left, right, n);
    EntriesFree(left, right, n);
    SplitJoin(HEADERS + entries, '\n');
    assert (HEADERS + entries)[2..] == entries;
  }

  /** The lines with this mark alone, without it. */
  function Marked(entries: seq<string>, mark: char): seq<string> {
    if entries == [] then []
    else
      Marked(Front(entries), mark)
      + (if Last(entries) != "" && Last(entries)[0] == mark then [Last(entries)[1..]] else [])
  }

  /** The two sides have the same line at this place. */
  predicate SameAt(left: seq<string>, right: seq<string>, i: nat) {
    i < |left| && i < |right| && left[i] == right[i]
  }

  /** The first `n` lines of one side where the other has the same (or not the same) line. */
  function Places(side: seq<string>, other: seq<string>, n: nat, same: bool): seq<string> {
    if n == 0 then []
    else
      Places(side, other, n - 1, same)
      + if n - 1 < |side| && SameAt(side, other, n - 1) == same then [side[n - 1]] else []
  }

  lemma MarkedMore(entries: seq<string>, c: char, line: string, mark: char)
    ensures Marked(entries + [[c] + line], mark) == Marked(entries, mark) + if c == mark then [line] else []
  {
    assert Front(entries + [[c] + line]) == entries;
    assert ([c] + line)[1..] == line;
  }

  /** One place of the two texts: the line once where it is the same, and else what one side has and the other not. */
  lemma EntryMarks(entries: seq<string>, left: seq<string>, right: seq<string>, i: nat, mark: char)
    requires mark in {' ', '-', '+'}
    ensures Marked(entries + Entry(left, right, i), mark)
         == Marked(entries, mark)
            + (if mark == '+' then if i < |right| && !SameAt(left, right, i) then [right[i]] else []
               else if i < |left| && SameAt(left, right, i) == (mark == ' ') then [left[i]] else [])
  {
    hide Marked;
    var entry := Entry(left, right, i);
    if SameAt(left, right, i) {
      assert entry == [[' '] + left[i]];
      MarkedMore(entries, ' ', left[i], mark);
    } else if i < |left| && i < |right| {
      var removed := entries + [['-'] + left[i]];
      assert entries + entry == removed + [['+'] + right[i]];
      MarkedMore(entries, '-', left[i], mark);
      MarkedMore(removed, '+', right[i], mark);
    } else if i < |left| {
      assert entry == [['-'] + left[i]];
      MarkedMore(entries, '-', left[i], mark);
    } else if i < |right| {
      assert entry == [['+'] + right[i]];
      MarkedMore(entries, '+', right[i], mark);
    } else {
      assert entries + entry == entries;
    }
  }

  lemma MarksOfNone(left: seq<string>, right: seq<string>)
    ensures forall mark :: Marked(Entries(left, right, 0), mark) == []
    ensures forall same :: Places(left, right, 0, same) == [] && Places(right, left, 0, same) == []
  {
  }

  lemma PlacesNext(side: seq<string>, other: seq<string>, n: nat, same: bool)
    requires n > 0
    ensures Places(side, other, n, same)
         == Places(side, other, n - 1, same)
            + if n - 1 < |side| && SameAt(side, other, n - 1) == same then [side[n - 1]] else []
  {
  }

  /** The lines marked as kept are exactly those that both texts have at the same place; as removed and as added are
      marked exactly the others of either text. */
  lemma {:induction false} MarksExactly(left: seq<string>, right: seq<string>, n: nat)
    ensures Marked(Entries(left, right, n), ' ') == Places(left, right, n, true)
    ensures Marked(Entries(left, right, n), '-') == Places(left, right, n, false)
    ensures Marked(Entries(left, right, n), '+') == Places(right, left, n, false)
  {
    hide Marked, Entry, Entries, Places;
    if n == 0 {
      MarksOfNone(left, right);
    } else {
      MarksExactly(left, right, n - 1);
      EntriesNext(left, right, n);
      var entries := Entries(left, right, n - 1);
      PlacesNext(left, right, n, true);
      PlacesNext(left, right, n, false);
      PlacesNext(right, left, n, false);
      EntryMarks(entries, left, right, n - 1, ' ');
      EntryMarks(entries, left, right, n - 1, '-');
      EntryMarks(entries, left, right, n - 1, '+');
    }
  }

  // Lines

  predicate NoFeeds(lines: seq<string>) {
    forall k :: 0 <= k < |lines| ==> '\n' !in lines[k]
  }

  /** Lines that end in a line feed are read back, where none of them ends in a carriage return of its own. */
  lemma LinesOfFeeds(lines: seq<string>)
    requires lines != [] && NoFeeds(lines)
    requires forall k :: 0 <= k < |lines| - 1 ==> lines[k] == "" || Last(lines[k]) != '\r'
    ensures Lines(Join(lines, "\n")) == lines
  {
    SplitJoin(lines, '\n');
  }

  /** Each line with the carriage return that belongs to its end. */
  function WithReturns(lines: seq<string>): (r: seq<string>)
    ensures |r| == |lines|
  {
    seq(|lines|, k requires 0 <= k < |lines| => if k < |lines| - 1 then lines[k] + "\r" else lines[k])
  }

  lemma {:induction false} JoinReturns(lines: seq<string>)
    requires lines != []
    ensures Join(WithReturns(lines), "\n") == Join(lines, "\r\n")
    decreases |lines|
  {
    var marked := WithReturns(lines);
    if |lines| > 1 {
      JoinReturns(lines[1..]);
      assert marked[1..] == WithReturns(lines[1..]);
      assert lines[0] + "\r" + "\n" == lines[0] + "\r\n";
    }
  }

  /** Lines that end in a carriage return and a line feed are read back, whatever else they hold. */
  lemma LinesOfReturns(lines: seq<string>)
    requires lines != [] && NoFeeds(lines)
    ensures Lines(Join(lines, "\r\n")) == lines
  {
    var marked := WithReturns(lines);
    JoinReturns(lines);
    SplitJoin(marked, '\n');
    forall k | 0 <= k < |lines|
      ensures k < |lines| - 1 ==> StripReturn(marked[k]) == lines[k]
    {
      assert k < |lines| - 1 ==> Front(lines[k] + "\r") == lines[k];
    }
  }
}
