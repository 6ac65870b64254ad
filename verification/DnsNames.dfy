/** Domain names in DNS messages: the compressing encoder and the parser that follows its pointers. */
module DnsNames {
  import opened Basics
  import opened Bytes

  const DOT: byte := 46
  const MAX_LABELS: nat := 128

  type Label = seq<byte>

  /** The rest of a string from index i on. */
  function From(s: seq<byte>, i: nat): seq<byte> {
    if i <= |s| then s[i..] else []
  }

  function DotAt(s: seq<byte>): (d: nat)
    ensures d <= |s|
  {
    if s == [] || s[0] == DOT then 0 else 1 + DotAt(s[1..])
  }

  lemma {:induction false} DotAtFirst(s: seq<byte>)
    ensures var d := DotAt(s); (d < |s| ==> s[d] == DOT) && DOT !in s[..d]
  {
    if s != [] && s[0] != DOT {
      DotAtFirst(s[1..]);
      var d := DotAt(s[1..]);
      assert s[..d + 1] == [s[0]] + s[1..][..d];
    }
  }

  /** The labels of a name, which its dots separate. */
  function Split(s: seq<byte>): (r: seq<Label>)
    ensures |r| > 0
    decreases |s|
  {
    var d := DotAt(s);
    if d == |s| then [s] else [s[..d]] + Split(s[d + 1..])
  }

  function Join(ls: seq<Label>): seq<byte> {
    if ls == [] then [] else if |ls| == 1 then ls[0] else ls[0] + [DOT] + Join(ls[1..])
  }

  lemma SplitUnfold(s: seq<byte>)
    ensures var d := DotAt(s);
      Split(s) == (if d == |s| then [s] else [s[..d]] + Split(From(s, d + 1)))
  {
  }

  lemma JoinCons(l: Label, ls: seq<Label>)
    ensures Join([l]) == l && (ls != [] ==> Join([l] + ls) == l + [DOT] + Join(ls))
  {
    assert ([l] + ls)[1..] == ls;
  }

  lemma {:induction false} JoinSplit(s: seq<byte>)
    ensures Join(Split(s)) == s
    decreases |s|
  {
    hide Split, DotAt, Join;
    var d := DotAt(s);
    DotAtFirst(s);
    SplitUnfold(s);
    if d < |s| {
      JoinSplit(From(s, d + 1));
      JoinCons(s[..d], Split(From(s, d + 1)));
      assert s == s[..d] + [DOT] + From(s, d + 1);
    } else {
      JoinCons(s, []);
    }
  }

  predicate LabelOk(l: Label) {
    1 <= |l| <= 63 && forall c <- l :: c != 0
  }

  /** Names without empty or overlong labels. */
  predicate WellFormed(name: seq<byte>) {
    forall l <- Split(name) :: LabelOk(l)
  }

  /** The place a pointer leads to: the low six bits of its first byte and all of its second. */
  function Target(high: byte, low: byte): nat {
    var h: int, l: int := high, low;
    h % 64 * 256 + l
  }

  /** The bytes of p at pos spell the labels: one after the other and then a zero, or ending in a pointer to some place
      before `low` that spells the rest.  Nothing in `holes` is read. */
  ghost predicate Spells(p: seq<byte>, holes: set<nat>, low: nat, pos: nat, labels: seq<Label>)
    decreases low, |labels|
  {
    && pos < |p| && pos !in holes
    && if labels == [] then p[pos] == 0
       else if p[pos] >= 192 then
         && pos + 1 < |p| && pos + 1 !in holes
         && var target := Target(p[pos], p[pos + 1]);
            target < low && Spells(p, holes, target, target, labels)
       else
         && LabelOk(labels[0]) && LabelAt(p, holes, pos, labels[0])
         && Spells(p, holes, low, pos + 1 + |labels[0]|, labels[1..])
  }

  ghost predicate LabelAt(p: seq<byte>, holes: set<nat>, pos: nat, l: Label) {
    && pos + 1 + |l| <= |p| && p[pos] == |l| && p[pos + 1..pos + 1 + |l|] == l
    && forall i | pos <= i <= pos + |l| :: i !in holes
  }

  /** The labels are laid out one after the other from pos to end. */
  ghost predicate Laid(p: seq<byte>, holes: set<nat>, pos: nat, labels: seq<Label>, end: nat)
    decreases |labels|
  {
    if labels == [] then pos == end
    else
      LabelOk(labels[0]) && LabelAt(p, holes, pos, labels[0])
      && Laid(p, holes, pos + 1 + |labels[0]|, labels[1..], end)
  }

  /** q goes on where p ends, and differs from it in holes only. */
  predicate Extends(p: seq<byte>, q: seq<byte>, holes: set<nat>) {
    |p| <= |q| && forall i | 0 <= i < |p| && i !in holes :: q[i] == p[i]
  }

  predicate MoreHoles(p: seq<byte>, holes: set<nat>, more: set<nat>) {
    forall i | 0 <= i < |p| && i in more :: i in holes
  }

  lemma LabelAtExtends(p: seq<byte>, q: seq<byte>, holes: set<nat>, more: set<nat>, pos: nat, l: Label)
    requires LabelAt(p, holes, pos, l) && Extends(p, q, holes) && MoreHoles(p, holes, more)
    ensures LabelAt(q, more, pos, l)
  {
    forall i | 0 <= i < |l| ensures q[pos + 1 + i] == l[i] {
      assert p[pos + 1..pos + 1 + |l|][i] == p[pos + 1 + i];
    }
  }

  lemma {:induction false} SpellsExtends(
      p: seq<byte>, q: seq<byte>, holes: set<nat>, more: set<nat>, low: nat, pos: nat, labels: seq<Label>)
    requires Spells(p, holes, low, pos, labels) && Extends(p, q, holes) && MoreHoles(p, holes, more)
    ensures Spells(q, more, low, pos, labels)
    decreases low, |labels|
  {
    if labels != [] {
      if p[pos] >= 192 {
        var target := Target(p[pos], p[pos + 1]);
        SpellsExtends(p, q, holes, more, target, target, labels);
      } else {
        LabelAtExtends(p, q, holes, more, pos, labels[0]);
        SpellsExtends(p, q, holes, more, low, pos + 1 + |labels[0]|, labels[1..]);
      }
    }
  }

  lemma {:induction false} LaidExtends(
      p: seq<byte>, q: seq<byte>, holes: set<nat>, pos: nat, labels: seq<Label>, end: nat)
    requires Laid(p, holes, pos, labels, end) && Extends(p, q, holes)
    ensures Laid(q, holes, pos, labels, end)
    decreases |labels|
  {
    if labels != [] {
      LabelAtExtends(p, q, holes, holes, pos, labels[0]);
      LaidExtends(p, q, holes, pos + 1 + |labels[0]|, labels[1..], end);
    }
  }

  lemma {:induction false} LaidSnoc(p: seq<byte>, holes: set<nat>, pos: nat, labels: seq<Label>, end: nat, l: Label)
    requires Laid(p, holes, pos, labels, end) && LabelOk(l) && LabelAt(p, holes, end, l)
    ensures Laid(p, holes, pos, labels + [l], end + 1 + |l|)
    decreases |labels|
  {
    if labels == [] {
      assert [l][1..] == [];
    } else {
      LaidSnoc(p, holes, pos + 1 + |labels[0]|, labels[1..], end, l);
      assert (labels + [l])[1..] == labels[1..] + [l];
    }
  }

  lemma {:induction false} SpellsRaise(p: seq<byte>, holes: set<nat>, low: nat, more: nat, pos: nat, labels: seq<Label>)
    requires Spells(p, holes, low, pos, labels) && low <= more
    ensures Spells(p, holes, more, pos, labels)
    decreases |labels|
  {
    if labels != [] && p[pos] < 192 {
      SpellsRaise(p, holes, low, more, pos + 1 + |labels[0]|, labels[1..]);
    }
  }

  lemma {:induction false} LaidSpells(
      p: seq<byte>, holes: set<nat>, low: nat, pos: nat, labels: seq<Label>, end: nat, rest: seq<Label>)
    requires Laid(p, holes, pos, labels, end) && Spells(p, holes, low, end, rest)
    ensures Spells(p, holes, low, pos, labels + rest)
    decreases |labels|
  {
    if labels == [] {
      assert labels + rest == rest;
    } else {
      LaidSpells(p, holes, low, pos + 1 + |labels[0]|, labels[1..], end, rest);
      assert (labels + rest)[1..] == labels[1..] + rest;
    }
  }

  /** What is written later does not move the end of a name. */
  lemma {:induction false} SkipExtends(
      p: seq<byte>, q: seq<byte>, holes: set<nat>, low: nat, pos: nat, labels: seq<Label>)
    requires Spells(p, holes, low, pos, labels) && Extends(p, q, holes)
    ensures Skip(q, pos) == Skip(p, pos)
    decreases low, |labels|
  {
    if labels != [] && p[pos] < 192 {
      SkipExtends(p, q, holes, low, pos + 1 + |labels[0]|, labels[1..]);
    }
  }

  datatype Parsed = Parsed(name: seq<byte>, next: nat)

  /** What the parser makes of the packet p from index j on.  It has followed `jumps` pointers, has `out` so far, has
      room for cap bytes, and will go on at `after` if it has followed a pointer. */
  function Parse(p: seq<byte>, j: nat, jumps: nat, out: seq<byte>, after: Option<nat>, cap: nat): Option<Parsed>
    requires jumps <= |p|
    decreases |p| - jumps, if j <= |p| then |p| - j else 0
  {
    if j >= |p| then None
    else if p[j] == 0 then
      if |out| >= cap then None else Some(Parsed(out, if after.Some? then after.value else j + 1))
    else if p[j] >= 64 then
      if j + 1 >= |p| then None
      else
        var target := Target(p[j], p[j + 1]);
        if target >= |p| || jumps + 1 > |p| then None
        else Parse(p, target, jumps + 1, out, if after.Some? then after else Some(j + 2), cap)
    else
      var n: nat := p[j];
      var dotted := if out == [] then out else out + [DOT];
      if (out != [] && |out| + 1 >= cap) || |dotted| + n >= cap || j + 1 + n > |p| then None
      else Parse(p, j + 1 + n, jumps, dotted + p[j + 1..j + 1 + n], after, cap)
  }

  /** Where the name at pos ends: behind its zero or behind its first pointer. */
  function Skip(p: seq<byte>, pos: nat): nat
    decreases if pos <= |p| then |p| - pos else 0
  {
    if pos >= |p| then pos
    else if p[pos] == 0 then pos + 1
    else if p[pos] >= 64 then pos + 2
    else Skip(p, pos + 1 + p[pos])
  }

  function Extended(out: seq<byte>, labels: seq<Label>): seq<byte>
    decreases |labels|
  {
    if labels == [] then out else Extended((if out == [] then out else out + [DOT]) + labels[0], labels[1..])
  }

  lemma {:induction false} ExtendedLonger(out: seq<byte>, labels: seq<Label>)
    ensures |Extended(out, labels)| >= |out|
    decreases |labels|
  {
    if labels != [] {
      ExtendedLonger((if out == [] then out else out + [DOT]) + labels[0], labels[1..]);
    }
  }

  lemma {:induction false} ExtendedJoin(out: seq<byte>, labels: seq<Label>)
    requires labels != [] && forall i | 0 <= i < |labels| :: labels[i] != []
    ensures Extended(out, labels) == (if out == [] then out else out + [DOT]) + Join(labels)
    decreases |labels|
  {
    if |labels| > 1 {
      var dotted := (if out == [] then out else out + [DOT]) + labels[0];
      assert labels[0] != [];
      ExtendedJoin(dotted, labels[1..]);
    }
  }

  /** The parser reads what the bytes spell.  It follows fewer pointers than the message has bytes, since each leads
      further back than the one before. */
  lemma {:induction false} SpellsParse(
      p: seq<byte>, holes: set<nat>, low: nat, pos: nat, labels: seq<Label>, jumps: nat, out: seq<byte>,
      after: Option<nat>, cap: nat)
    requires Spells(p, holes, low, pos, labels) && jumps + low <= |p| && |Extended(out, labels)| < cap
    ensures Parse(p, pos, jumps, out, after, cap) ==
      Some(Parsed(Extended(out, labels), if after.Some? then after.value else Skip(p, pos)))
    decreases low, |labels|
  {
    if labels != [] {
      if p[pos] >= 192 {
        var target := Target(p[pos], p[pos + 1]);
        var next := if after.Some? then after else Some(pos + 2);
        SpellsParse(p, holes, target, target, labels, jumps + 1, out, next, cap);
      } else {
        var dotted := if out == [] then out else out + [DOT];
        ExtendedLonger(dotted + labels[0], labels[1..]);
        SpellsParse(p, holes, low, pos + 1 + |labels[0]|, labels[1..], jumps, dotted + labels[0], after, cap);
      }
    }
  }

  /** Parsing an encoded name returns it and goes on behind it. */
  lemma NameRoundTrip(p: seq<byte>, holes: set<nat>, pos: nat, name: seq<byte>, cap: nat)
    requires Spells(p, holes, pos, pos, Split(name)) && WellFormed(name) && |name| < cap
    ensures Parse(p, pos, 0, [], None, cap) == Some(Parsed(name, Skip(p, pos)))
  {
    assert forall i | 0 <= i < |Split(name)| :: Split(name)[i] in Split(name);
    ExtendedJoin([], Split(name));
    JoinSplit(name);
    assert [] + name == name;
    SpellsParse(p, holes, pos, pos, Split(name), 0, [], None, cap);
  }

  /** Whatever the packet holds, the parser goes on inside it and writes no more than there is room for. */
  lemma {:induction false} ParseBounds(p: seq<byte>, j: nat, jumps: nat, out: seq<byte>, after: Option<nat>, cap: nat)
    requires jumps <= |p| && (after.Some? ==> after.value <= |p|)
    ensures var r := Parse(p, j, jumps, out, after, cap); r.Some? ==> |r.value.name| < cap && r.value.next <= |p|
    decreases |p| - jumps, if j <= |p| then |p| - j else 0
  {
    if j < |p| && p[j] != 0 {
      if p[j] >= 64 {
        if j + 1 < |p| {
          var target := Target(p[j], p[j + 1]);
          if target < |p| && jumps + 1 <= |p| {
            ParseBounds(p, target, jumps + 1, out, if after.Some? then after else Some(j + 2), cap);
          }
        }
      } else {
        var n: nat := p[j];
        var dotted := if out == [] then out else out + [DOT];
        if !((out != [] && |out| + 1 >= cap) || |dotted| + n >= cap || j + 1 + n > |p|) {
          ParseBounds(p, j + 1 + n, jumps, dotted + p[j + 1..j + 1 + n], after, cap);
        }
      }
    }
  }

  lemma {:induction false} LaidSkip(p: seq<byte>, holes: set<nat>, pos: nat, labels: seq<Label>, end: nat)
    requires Laid(p, holes, pos, labels, end)
    ensures Skip(p, pos) == Skip(p, end)
    decreases |labels|
  {
    if labels != [] {
      LaidSkip(p, holes, pos + 1 + |labels[0]|, labels[1..], end);
    }
  }

  /** Where a name, given by its text, is in the message. */
  datatype Entry = Entry(name: seq<byte>, pos: nat)

  ghost predicate EntryOk(p: seq<byte>, holes: set<nat>, e: Entry) {
    e.pos < |p| && (WellFormed(e.name) ==> Spells(p, holes, e.pos, e.pos, Split(e.name)))
  }

  ghost predicate TableOk(p: seq<byte>, holes: set<nat>, entries: seq<Entry>) {
    forall i | 0 <= i < |entries| :: EntryOk(p, holes, entries[i])
  }

  lemma TableExtends(p: seq<byte>, q: seq<byte>, holes: set<nat>, more: set<nat>, entries: seq<Entry>)
    requires TableOk(p, holes, entries) && Extends(p, q, holes) && MoreHoles(p, holes, more)
    ensures TableOk(q, more, entries)
  {
    forall i | 0 <= i < |entries| ensures EntryOk(q, more, entries[i]) {
      assert EntryOk(p, holes, entries[i]);
      if WellFormed(entries[i].name) {
        SpellsExtends(p, q, holes, more, entries[i].pos, entries[i].pos, Split(entries[i].name));
      }
    }
  }

  /** A table as a value, and how often memory has been asked for on its behalf. */
  datatype Table = Table(entries: seq<Entry>, tries: nat)

  /** The table after an attempt to enter e.  There is no memory for the k-th attempt if lacks(k). */
  function Remembered(t: Table, lacks: nat -> bool, e: Entry): Table {
    if |t.entries| >= MAX_LABELS then t
    else Table(t.entries + (if lacks(t.tries) then [] else [e]), t.tries + 1)
  }

  /** The table of names that have been used in the current message. */
  class LabelTable {
    const lacks: nat -> bool
    var entries: seq<Entry>
    var tries: nat

    constructor (lacks: nat -> bool)
      ensures this.lacks == lacks && Now() == Table([], 0)
    {
      this.lacks, entries, tries := lacks, [], 0;
    }

    function Now(): Table
      reads this
    {
      Table(entries, tries)
    }

    method GetPos(name: seq<byte>) returns (pos: int)
      ensures pos >= 0 ==> Entry(name, pos) in entries
      ensures pos < 0 ==> pos == -1 && forall e <- entries :: e.name != name
    {
      for i := 0 to |entries|
        invariant forall e <- entries[..i] :: e.name != name
      {
        if entries[i].name == name { return entries[i].pos; }
      }
      pos := -1;
    }

    /** Remembers a name, unless the table is full or there is no memory. */
    method Add(name: seq<byte>, pos: nat) returns (ok: bool)
      modifies this
      ensures ok == (|old(entries)| < MAX_LABELS && !lacks(old(tries)))
      ensures entries == old(entries) + (if ok then [Entry(name, pos)] else [])
      ensures Now() == Remembered(old(Now()), lacks, Entry(name, pos))
    {
      if |entries| >= MAX_LABELS { return false; }
      tries := tries + 1;
      if lacks(tries - 1) { return false; }
      entries := entries + [Entry(name, pos)];
      ok := true;
    }
  }

  /** The labels before the m-th are written, the k-th at starts[k], and the next byte is j. */
  ghost predicate Written(p: seq<byte>, holes: set<nat>, start: nat, labels: seq<Label>, starts: seq<nat>, j: nat) {
    && |starts| <= |labels|
    && (if starts == [] then j == start else starts[0] == start)
    && forall k | 0 <= k < |starts| :: start <= starts[k] && Laid(p, holes, starts[k], labels[k..|starts|], j)
  }

  lemma WrittenNext(
      p: seq<byte>, q: seq<byte>, holes: set<nat>, start: nat, labels: seq<Label>, starts: seq<nat>, j: nat)
    requires Written(p, holes, start, labels, starts, j) && Extends(p, q, holes) && start <= j
    requires |starts| < |labels| && LabelOk(labels[|starts|]) && LabelAt(q, holes, j, labels[|starts|])
    ensures Written(q, holes, start, labels, starts + [j], j + 1 + |labels[|starts|]|)
  {
    var m := |starts|;
    var more := starts + [j];
    hide Laid, LabelAt, LabelOk;
    forall k | 0 <= k <= m ensures Laid(q, holes, more[k], labels[k..m + 1], j + 1 + |labels[m]|) {
      if k < m {
        LaidExtends(p, q, holes, starts[k], labels[k..m], j);
        LaidSnoc(q, holes, starts[k], labels[k..m], j, labels[m]);
        SliceSnoc(labels, k, m);
      } else {
        SliceSnoc(labels, k, m);
        LaidOne(q, holes, j, labels[m]);
      }
    }
  }

  lemma SliceSnoc(labels: seq<Label>, k: nat, m: nat)
    requires k <= m < |labels|
    ensures labels[k..m + 1] == labels[k..m] + [labels[m]] && labels[m..m + 1] == [labels[m]]
  {
  }

  lemma LaidOne(p: seq<byte>, holes: set<nat>, pos: nat, l: Label)
    requires LabelOk(l) && LabelAt(p, holes, pos, l)
    ensures Laid(p, holes, pos, [l], pos + 1 + |l|)
  {
    assert Laid(p, holes, pos + 1 + |l|, [l][1..], pos + 1 + |l|);
  }

  /** Once the rest of a name is spelled, each of its suffixes is. */
  lemma WrittenSpells(
      p: seq<byte>, holes: set<nat>, start: nat, labels: seq<Label>, starts: seq<nat>, j: nat, k: nat)
    requires Written(p, holes, start, labels, starts, j) && Spells(p, holes, start, j, labels[|starts|..])
    requires k < |starts| || (k == 0 && starts == [])
    ensures var pos := if k < |starts| then starts[k] else start;
      Spells(p, holes, pos, pos, labels[k..]) && Skip(p, pos) == Skip(p, j)
  {
    hide Spells, Laid, Skip;
    if k < |starts| {
      var m := |starts|;
      LaidSpells(p, holes, start, starts[k], labels[k..m], j, labels[m..]);
      assert labels[k..] == labels[k..m] + labels[m..];
      SpellsRaise(p, holes, start, starts[k], starts[k], labels[k..]);
      LaidSkip(p, holes, starts[k], labels[k..m], j);
    }
  }

  /** The entries from n on are suffixes of the name that is being written. */
  ghost predicate OwnEntries(entries: seq<Entry>, n: nat, labels: seq<Label>, starts: seq<nat>) {
    forall i | n <= i < |entries| ::
      exists k | 0 <= k < |starts| && k <= |labels| ::
        entries[i].pos == starts[k] && Split(entries[i].name) == labels[k..]
  }

  lemma NameDone(
      p: seq<byte>, q: seq<byte>, holes: set<nat>, start: nat, labels: seq<Label>, starts: seq<nat>, j: nat,
      entries: seq<Entry>, n: nat)
    requires |p| == start && Extends(p, q, holes) && n <= |entries| && TableOk(p, holes, entries[..n])
    requires Written(q, holes, start, labels, starts, j) && Spells(q, holes, start, j, labels[|starts|..])
    requires OwnEntries(entries, n, labels, starts)
    ensures Spells(q, holes, start, start, labels) && Skip(q, start) == Skip(q, j)
    ensures TableOk(q, holes, entries)
  {
    WrittenSpells(q, holes, start, labels, starts, j, 0);
    assert labels[0..] == labels;
    TableExtends(p, q, holes, holes, entries[..n]);
    forall i | 0 <= i < |entries| ensures EntryOk(q, holes, entries[i]) {
      if i < n {
        assert entries[i] == entries[..n][i];
      } else {
        var k :| 0 <= k < |starts| && entries[i].pos == starts[k] && Split(entries[i].name) == labels[k..];
        WrittenSpells(q, holes, start, labels, starts, j, k);
      }
    }
  }

  /** A two-byte number, the high byte first. */
  method Append16(buf: array<byte>, bufLen: nat, j: nat, x: nat) returns (ok: bool)
    requires bufLen <= buf.Length && j <= buf.Length && x < 0x1_0000
    modifies buf
    ensures ok == (j + 2 <= bufLen)
    ensures ok ==> buf[..j] == old(buf[..j]) && buf[j] == x / 256 && buf[j + 1] == x % 256
    ensures !ok ==> buf[..] == old(buf[..])
  {
    if j + 2 > bufLen { return false; }
    buf[j] := x / 256;
    buf[j + 1] := x % 256;
    ok := true;
  }

  predicate Below(entries: seq<Entry>, end: nat) {
    forall e <- entries :: e.pos < end
  }

  predicate TooLong(name: seq<byte>) {
    exists l <- Split(name) :: |l| > 63
  }

  predicate Short(name: seq<byte>) {
    |name| <= 255
  }

  /** What the encoder leaves behind when it succeeds: the name, and a table that is good for the longer message. */
  ghost predicate Encoded(buf: array<byte>, holes: set<nat>, start: nat, end: nat, name: seq<byte>, entries: seq<Entry>)
    reads buf
  {
    && start < end <= buf.Length
    && Spells(buf[..end], holes, start, start, Split(name)) && Skip(buf[..end], start) == end
    && TableOk(buf[..end], holes, entries)
  }

  /** Writes one label with its length. */
  method WriteLabel(buf: array<byte>, j: nat, text: Label, ghost holes: set<nat>)
    requires |text| <= 63 && j + 1 + |text| <= buf.Length && forall h <- holes :: h < j
    modifies buf
    ensures buf[..j] == old(buf[..j])
    ensures LabelAt(buf[..j + 1 + |text|], holes, j, text)
  {
    buf[j] := |text|;
    ghost var b := buf[..];
    assert b[..j] == old(buf[..j]);
    Memcpy(buf, j + 1, text);
    assert buf[..j] == buf[..j + 1][..j];
    assert buf[j] == buf[..j + 1][j];
  }

  /** The text of the name from index i on is its labels from the m-th on. */
  ghost predicate AtLabel(name: seq<byte>, i: nat, m: nat) {
    i <= |name| && m < |Split(name)| && Split(From(name, i)) == Split(name)[m..]
  }

  lemma FromFrom(s: seq<byte>, i: nat, k: nat)
    requires i + k <= |s|
    ensures From(From(s, i), k) == From(s, i + k) && |From(s, i)| == |s| - i
  {
  }

  lemma FromNext(name: seq<byte>, i: nat, d: nat, m: nat)
    requires AtLabel(name, i, m) && d == DotAt(From(name, i))
    ensures i + d <= |name| && |From(name, i)| == |name| - i
    ensures m < |Split(name)| && From(name, i)[..d] == Split(name)[m] && Split(From(name, i)) == Split(name)[m..]
    ensures if i + d < |name| then AtLabel(name, i + d + 1, m + 1) else m + 1 == |Split(name)|
  {
    hide Split, DotAt, From, AtLabel;
    var rest, labels := From(name, i), Split(name);
    AtLabelIs(name, i, m);
    FromFrom(name, i, 0);
    SplitUnfold(rest);
    LabelsNext(labels, m, Split(rest));
    if i + d < |name| {
      FromFrom(name, i, d + 1);
      ConsTail(rest[..d], Split(From(rest, d + 1)));
      MakeAtLabel(name, i + d + 1, m + 1);
    } else {
      AllOf(rest);
    }
  }

  lemma AllOf(s: seq<byte>)
    ensures s[..|s|] == s
  {
  }

  lemma ConsTail(x: Label, s: seq<Label>)
    ensures ([x] + s)[0] == x && ([x] + s)[1..] == s
  {
  }

  lemma AtLabelIs(name: seq<byte>, i: nat, m: nat)
    requires AtLabel(name, i, m)
    ensures i <= |name| && m < |Split(name)| && Split(From(name, i)) == Split(name)[m..]
  {
    hide Split, From;
  }

  lemma MakeAtLabel(name: seq<byte>, i: nat, m: nat)
    requires i <= |name| && m < |Split(name)| && Split(From(name, i)) == Split(name)[m..]
    ensures AtLabel(name, i, m)
  {
    hide Split, From;
  }

  lemma LabelsNext(labels: seq<Label>, m: nat, rest: seq<Label>)
    requires m < |labels| && labels[m..] == rest
    ensures |rest| == |labels| - m && labels[m] == rest[0] && labels[m + 1..] == rest[1..]
  {
  }

  lemma AtLabelBounds(name: seq<byte>, i: nat, m: nat)
    requires AtLabel(name, i, m)
    ensures var d := DotAt(From(name, i));
      && i + d <= |name|
      && (WellFormed(name) ==> 0 < d <= 63)
      && (d > 63 ==> TooLong(name))
  {
    hide Split, DotAt, From, AtLabel;
    FromNext(name, i, DotAt(From(name, i)), m);
    var l := Split(name)[m];
    assert l in Split(name);
    if WellFormed(name) { assert LabelOk(l); }
  }

  /** What holds while a well-formed name is being written. */
  ghost predicate Under(
      p: seq<byte>, holes: set<nat>, start: nat, labels: seq<Label>, starts: seq<nat>, j: nat, entries: seq<Entry>,
      n: nat)
  {
    && start <= |p| && n <= |entries|
    && Written(p, holes, start, labels, starts, j)
    && TableOk(p[..start], holes, entries[..n]) && OwnEntries(entries, n, labels, starts)
  }

  lemma UnderNext(
      p: seq<byte>, q: seq<byte>, holes: set<nat>, start: nat, labels: seq<Label>, starts: seq<nat>, j: nat,
      entries: seq<Entry>, more: seq<Entry>, n: nat)
    requires Under(p, holes, start, labels, starts, j, entries, n) && |p| == j && p <= q && start <= j
    requires |starts| < |labels| && LabelOk(labels[|starts|]) && LabelAt(q, holes, j, labels[|starts|])
    requires more == entries || exists e :: more == entries + [e] && e.pos == j && Split(e.name) == labels[|starts|..]
    ensures Under(q, holes, start, labels, starts + [j], j + 1 + |labels[|starts|]|, more, n)
  {
    hide Written, TableOk, LabelOk, LabelAt, Split;
    assert p[..start] == q[..start] && more[..n] == entries[..n];
    WrittenNext(p, q, holes, start, labels, starts, j);
    var s := starts + [j];
    assert s[|starts|] == j;
    forall i | n <= i < |more|
      ensures exists k | 0 <= k < |s| && k <= |labels| :: more[i].pos == s[k] && Split(more[i].name) == labels[k..]
    {
      if i < |entries| {
        var k :| 0 <= k < |starts| && k <= |labels| && entries[i].pos == starts[k]
          && Split(entries[i].name) == labels[k..];
        assert s[k] == starts[k];
      }
    }
  }

  lemma UnderDone(
      p: seq<byte>, q: seq<byte>, holes: set<nat>, start: nat, labels: seq<Label>, starts: seq<nat>, j: nat,
      entries: seq<Entry>, n: nat)
    requires Under(p, holes, start, labels, starts, j, entries, n) && |p| == j && p <= q && start <= j
    requires Spells(q, holes, start, j, labels[|starts|..])
    ensures Spells(q, holes, start, start, labels) && Skip(q, start) == Skip(q, j) && TableOk(q, holes, entries)
  {
    hide Spells, Laid, Skip, TableOk;
    forall k | 0 <= k < |starts| ensures Laid(q, holes, starts[k], labels[k..|starts|], j) {
      LaidExtends(p, q, holes, starts[k], labels[k..|starts|], j);
    }
    NameDone(p[..start], q, holes, start, labels, starts, j, entries, n);
  }

  lemma OwnLonger(entries: seq<Entry>, n: nat, labels: seq<Label>, starts: seq<nat>, i: nat)
    requires OwnEntries(entries, n, labels, starts) && n <= i < |entries| && |starts| <= |labels|
    ensures |Split(entries[i].name)| > |labels| - |starts|
  {
    var k :| 0 <= k < |starts| && k <= |labels| && entries[i].pos == starts[k] && Split(entries[i].name) == labels[k..];
  }

  lemma PointerAt(p: seq<byte>, holes: set<nat>, low: nat, pos: nat, target: nat, labels: seq<Label>)
    requires Spells(p, holes, target, target, labels) && target < low && target < 0x4000 && labels != []
    requires pos + 1 < |p| && p[pos] == 192 + target / 256 && p[pos + 1] == target % 256 && pos !in holes
      && pos + 1 !in holes
    ensures Spells(p, holes, low, pos, labels) && Skip(p, pos) == pos + 2
  {
    TargetOf(target);
  }

  lemma TargetOf(x: nat)
    requires x < 0x4000
    ensures x / 256 < 64 && Target(192 + x / 256, x % 256) == x
  {
  }

  /** A pointer to where the rest of the name has been used before spells that rest. */
  lemma PointerSpells(
      p: seq<byte>, q: seq<byte>, holes: set<nat>, start: nat, labels: seq<Label>, starts: seq<nat>, j: nat,
      entries: seq<Entry>, n: nat, e: Entry)
    requires Under(p, holes, start, labels, starts, j, entries, n) && |p| == j && p <= q && start <= j
    requires e in entries && |starts| < |labels| && Split(e.name) == labels[|starts|..] && WellFormed(e.name)
    requires |q| == j + 2 && e.pos < 0x4000 && q[j] == 192 + e.pos / 256 && q[j + 1] == e.pos % 256
      && forall h <- holes :: h < start
    ensures Spells(q, holes, start, j, labels[|starts|..]) && Skip(q, j) == j + 2
  {
    hide Spells, Laid, Split, WellFormed, Skip;
    var i :| 0 <= i < |entries| && entries[i] == e;
    if i >= n { OwnLonger(entries, n, labels, starts, i); }
    assert entries[..n][i] == e && EntryOk(p[..start], holes, e);
    SpellsExtends(p[..start], q, holes, holes, e.pos, e.pos, labels[|starts|..]);
    PointerAt(q, holes, start, j, e.pos, labels[|starts|..]);
  }

  lemma FromLast(name: seq<byte>, i: nat, d: nat)
    requires d <= |From(name, i)|
    ensures i + d <= |name| || d == 0
    ensures d > 0 ==> From(name, i)[..d][d - 1] == name[i + d - 1]
  {
  }

  lemma LastAt(p: seq<byte>, holes: set<nat>, j: nat, l: Label)
    requires LabelAt(p, holes, j, l)
    ensures p[j + |l|] == if l == [] then |l| else l[|l| - 1]
  {
    if l != [] { assert p[j + 1..j + 1 + |l|][|l| - 1] == p[j + |l|]; }
  }

  /** Writes the first label of `rest`, the m-th of the name, and puts `rest` into the table. */
  method EncodeLabel(
      buf: array<byte>, bufLen: nat, j: nat, name: seq<byte>, i: nat, d: nat, table: LabelTable,
      ghost good: bool, ghost holes: set<nat>, ghost start: nat, ghost starts: seq<nat>, ghost n: nat)
    requires AtLabel(name, i, |starts|) && d == DotAt(From(name, i)) <= 63
    requires start <= j && j + d + 1 <= bufLen <= buf.Length && forall h <- holes :: h < start
    requires good ==> WellFormed(name) && Under(buf[..j], holes, start, Split(name), starts, j, table.entries, n)
    requires Below(table.entries, bufLen)
    modifies buf, table
    ensures buf[..start] == old(buf[..start]) && Below(table.entries, bufLen)
    ensures if i + d < |name| then AtLabel(name, i + d + 1, |starts| + 1) else |starts| + 1 == |Split(name)|
    ensures i + d <= |name| && buf[j + d] == (if d == 0 then 0 else name[i + d - 1])
    ensures table.Now() == Remembered(old(table.Now()), table.lacks, Entry(From(name, i), j))
    ensures good ==> buf[j + d] != 0
    ensures good ==> Under(buf[..j + 1 + d], holes, start, Split(name), starts + [j], j + 1 + d, table.entries, n)
  {
    hide Split, Spells, Laid, TableOk, Skip, Under, WellFormed, From, AtLabel, DotAt, Remembered;
    var rest := From(name, i);
    FromNext(name, i, d, |starts|);
    FromLast(name, i, d);
    ghost var p, was := buf[..j], table.entries;
    var ok := table.Add(rest, j);
    WriteLabel(buf, j, rest[..d], holes);
    LastAt(buf[..j + 1 + d], holes, j, rest[..d]);
    assert buf[..start] == buf[..j][..start];
    if good {
      LabelIsOk(name, |starts|);
      ghost var q := buf[..j + 1 + d];
      assert p <= q by { assert q[..j] == p; }
      UnderNext(p, q, holes, start, Split(name), starts, j, was, table.entries, n);
      assert q[j + 1..j + 1 + d][d - 1] == q[j + d];
    }
  }

  lemma UnderStart(p: seq<byte>, holes: set<nat>, start: nat, name: seq<byte>, entries: seq<Entry>)
    requires |p| == start && TableOk(p, holes, entries)
    ensures Under(p, holes, start, Split(name), [], start, entries, |entries|)
  {
    assert p[..start] == p && entries[..|entries|] == entries;
  }

  lemma SplitAll(name: seq<byte>)
    ensures AtLabel(name, 0, 0)
  {
    assert name[0..] == name && Split(name)[0..] == Split(name);
  }

  lemma PosBelow(entries: seq<Entry>, name: seq<byte>, pos: nat, end: nat)
    requires Below(entries, end) && Entry(name, pos) in entries
    ensures pos < end
  {
  }

  /** Ends a name with a pointer to where the rest of it has been used. */
  method EncodePointer(
      buf: array<byte>, bufLen: nat, j: nat, ref: nat, table: LabelTable,
      ghost good: bool, ghost holes: set<nat>, ghost start: nat, ghost name: seq<byte>, ghost i: nat,
      ghost starts: seq<nat>, ghost n: nat)
    returns (r: int)
    requires start <= j && bufLen <= buf.Length && bufLen <= 0x4000 && forall h <- holes :: h < start
    requires AtLabel(name, i, |starts|) && Entry(From(name, i), ref) in table.entries && Below(table.entries, bufLen)
    requires good ==> j <= buf.Length
    requires good ==> WellFormed(name) && Under(buf[..j], holes, start, Split(name), starts, j, table.entries, n)
    modifies buf
    ensures buf[..Least(start, buf.Length)] == old(buf[..Least(start, buf.Length)])
    ensures r == if j + 2 <= bufLen then j + 2 else -2
    ensures r >= 0 && good ==> Encoded(buf, holes, start, r, name, table.entries)
  {
    PosBelow(table.entries, From(name, i), ref, bufLen);
    assert Split(From(name, i)) == Split(name)[|starts|..];
    hide From, AtLabel, Split, Spells, Laid, TableOk, Skip, Under, WellFormed, Written;
    ghost var rest := From(name, i);
    if j + 2 > bufLen { return -2; }
    ghost var p := buf[..j];
    var ok := Append16(buf, bufLen, j, 0xc000 + ref);
    ghost var q := buf[..j + 2];
    assert p <= q by { assert q[..j] == p; }
    assert q[..start] == p[..start];
    if good {
      SuffixWellFormed(name, rest, |starts|);
      PointerSpells(p, q, holes, start, Split(name), starts, j, table.entries, n, Entry(rest, ref));
      UnderDone(p, q, holes, start, Split(name), starts, j, table.entries, n);
    }
    r := j + 2;
  }

  lemma SuffixWellFormed(name: seq<byte>, rest: seq<byte>, k: nat)
    requires WellFormed(name) && k <= |Split(name)| && Split(rest) == Split(name)[k..]
    ensures WellFormed(rest)
  {
  }

  /** Ends a name with a zero, unless its last label already has. */
  method EncodeZero(
      buf: array<byte>, bufLen: nat, j: nat, table: LabelTable,
      ghost good: bool, ghost holes: set<nat>, ghost start: nat, ghost name: seq<byte>, ghost starts: seq<nat>,
      ghost n: nat)
    returns (r: int)
    requires start < j <= bufLen <= buf.Length && forall h <- holes :: h < start
    requires buf[j - 1] != 0 ==> j < buf.Length
    requires good ==> buf[j - 1] != 0 && |starts| == |Split(name)|
    requires good ==> WellFormed(name) && Under(buf[..j], holes, start, Split(name), starts, j, table.entries, n)
    modifies buf
    ensures buf[..start] == old(buf[..start]) && start < r <= bufLen + 1
    ensures r == if old(buf[j - 1]) != 0 then j + 1 else j
    ensures r > bufLen ==> bufLen < buf.Length && buf[bufLen] == 0
    ensures good ==> Encoded(buf, holes, start, r, name, table.entries)
  {
    hide Split, Laid, TableOk, Under, WellFormed, Written;
    r := j;
    if j == 0 || buf[j - 1] != 0 {
      ghost var p := buf[..j];
      buf[j] := 0;
      r := j + 1;
      ghost var q := buf[..j + 1];
      assert p <= q by { assert q[..j] == p; }
      assert q[..start] == p[..start];
      if good {
        assert Split(name)[|starts|..] == [];
        UnderDone(p, q, holes, start, Split(name), starts, j, table.entries, n);
      }
    }
  }

  lemma LabelIsOk(name: seq<byte>, k: nat)
    requires WellFormed(name) && k < |Split(name)|
    ensures LabelOk(Split(name)[k]) && |Split(name)[k]| > 0 && Split(name)[k][|Split(name)[k]| - 1] != 0
  {
    var l := Split(name)[k];
    assert LabelOk(l);
    assert l[|l| - 1] in l;
  }

  predicate Known(entries: seq<Entry>, name: seq<byte>) {
    exists e <- entries :: e.name == name
  }

  /** Where the encoder gets to, and with which table. */
  datatype Spot = Spot(end: nat, table: Table)

  /** Where a name ends up that is encoded at `start`, of whose array bufLen bytes are meant for the message; None if
      the encoder gives up. */
  function Located(name: seq<byte>, start: nat, bufLen: nat, t: Table, lacks: nat -> bool): Option<Spot> {
    if |name| > 255 then None else Place(name, 0, start, bufLen, t, lacks)
  }

  /** The same for the labels from index i of the name on, the first of which comes to j. */
  function Place(name: seq<byte>, i: nat, j: nat, bufLen: nat, t: Table, lacks: nat -> bool): Option<Spot>
    decreases if i <= |name| then |name| - i else 0
  {
    if i > |name| then None
    else if Known(t.entries, From(name, i)) then if j + 2 <= bufLen then Some(Spot(j + 2, t)) else None
    else
      var d := DotAt(From(name, i));
      if d > 63 || j + d + 1 > bufLen then None
      else
        var u := Remembered(t, lacks, Entry(From(name, i), j));
        if i + d < |name| then Place(name, i + d + 1, j + d + 1, bufLen, u, lacks)
        else Some(Spot(if d > 0 && name[i + d - 1] != 0 then j + d + 2 else j + d + 1, u))
  }

  predicate LabelStart(name: seq<byte>, i: nat) {
    i <= |name| && (i == 0 || name[i - 1] == DOT)
  }

  /** Some rest of the name, from a label at index i or later on, is in the table. */
  predicate RestKnown(entries: seq<Entry>, name: seq<byte>, i: nat) {
    exists k | i <= k <= |name| :: LabelStart(name, k) && Known(entries, From(name, k))
  }

  /** The name ends in a label, and with a length before each label it takes all the bytes from start up to bufLen. */
  predicate JustFits(name: seq<byte>, start: nat, bufLen: nat) {
    && start + |name| + 1 == bufLen
    && name != [] && name[|name| - 1] != 0 && name[|name| - 1] != DOT
    && |name| <= 255 && !TooLong(name)
  }

  /** The zero behind the name falls behind the bytes that are meant for the message. */
  predicate RunsOver(entries: seq<Entry>, name: seq<byte>, start: nat, bufLen: nat) {
    JustFits(name, start, bufLen) && !RestKnown(entries, name, 0)
  }

  lemma NextLabelStart(name: seq<byte>, i: nat, k: nat)
    requires LabelStart(name, i) && i < k && LabelStart(name, k)
    ensures i + DotAt(From(name, i)) < k
  {
    var d := DotAt(From(name, i));
    DotAtFirst(From(name, i));
    forall x | i <= x < i + d ensures name[x] != DOT {
      assert From(name, i)[..d][x - i] == name[x];
    }
  }

  /** Entering a rest of the name does not make a shorter one known. */
  lemma KnownShorter(t: Table, lacks: nat -> bool, e: Entry, name: seq<byte>)
    requires |name| < |e.name|
    ensures Known(Remembered(t, lacks, e).entries, name) == Known(t.entries, name)
  {
    var u := Remembered(t, lacks, e);
    if Known(t.entries, name) {
      var f :| f in t.entries && f.name == name;
      assert f in u.entries;
    }
    if Known(u.entries, name) {
      var f :| f in u.entries && f.name == name;
      assert f in t.entries;
    }
  }

  lemma RestKnownNext(t: Table, lacks: nat -> bool, name: seq<byte>, i: nat, j: nat)
    requires LabelStart(name, i) && !Known(t.entries, From(name, i))
    ensures var d := DotAt(From(name, i)); var u := Remembered(t, lacks, Entry(From(name, i), j));
      && i + d <= |name|
      && (i + d == |name| ==> !RestKnown(t.entries, name, i))
      && (i + d < |name| ==> LabelStart(name, i + d + 1)
                             && RestKnown(t.entries, name, i) == RestKnown(u.entries, name, i + d + 1))
  {
    hide Remembered, Known, DotAt;
    var d := DotAt(From(name, i));
    var e := Entry(From(name, i), j);
    var u := Remembered(t, lacks, e);
    DotAtFirst(From(name, i));
    if RestKnown(t.entries, name, i) {
      var k :| i <= k <= |name| && LabelStart(name, k) && Known(t.entries, From(name, k));
      NextLabelStart(name, i, k);
      KnownShorter(t, lacks, e, From(name, k));
      assert i + d < |name| ==> RestKnown(u.entries, name, i + d + 1);
    }
    if i + d < |name| && RestKnown(u.entries, name, i + d + 1) {
      var k :| i + d + 1 <= k <= |name| && LabelStart(name, k) && Known(u.entries, From(name, k));
      KnownShorter(t, lacks, e, From(name, k));
      assert RestKnown(t.entries, name, i);
    }
  }

  lemma TooLongNext(s: seq<byte>)
    ensures var d := DotAt(s); TooLong(s) == (d > 63 || (d < |s| && TooLong(From(s, d + 1))))
  {
    hide DotAt;
    var d := DotAt(s);
    var rest := Split(From(s, d + 1));
    SplitUnfold(s);
    if d < |s| {
      assert Split(s)[0] == s[..d] && Split(s)[1..] == rest;
      assert forall l <- Split(s) :: l == s[..d] || l in rest;
      assert forall l <- rest :: l in Split(s);
    }
  }

  /** The encoder runs over exactly if the name just fits and no rest of it has been used before. */
  lemma {:induction false} PlaceRunsOver(name: seq<byte>, i: nat, j: nat, bufLen: nat, t: Table, lacks: nat -> bool)
    requires LabelStart(name, i)
    ensures var s := Place(name, i, j, bufLen, t, lacks);
      && (s.Some? ==> s.value.end <= bufLen + 1)
      && (s.Some? && s.value.end > bufLen <==>
            j + |name| - i + 1 == bufLen && i < |name| && name[|name| - 1] != 0 && name[|name| - 1] != DOT
            && !TooLong(From(name, i)) && !RestKnown(t.entries, name, i))
    decreases |name| - i
  {
    hide RestKnown, TooLong, Remembered, Place, Known, DotAt, From;
    PlaceStep(name, i, j, bufLen, t, lacks);
    if Known(t.entries, From(name, i)) {
      RestKnownHere(t.entries, name, i);
    } else {
      var d := DotAt(From(name, i));
      LastByte(name, i);
      RestKnownNext(t, lacks, name, i, j);
      TooLongNext(From(name, i));
      FromFrom(name, i, 0);
      DotAtFirst(From(name, i));
      if i + d < |name| {
        FromFrom(name, i, d + 1);
        if d <= 63 && j + d + 1 <= bufLen {
          PlaceRunsOver(name, i + d + 1, j + d + 1, bufLen, Remembered(t, lacks, Entry(From(name, i), j)), lacks);
        }
      }
    }
  }

  lemma LastByte(name: seq<byte>, i: nat)
    requires LabelStart(name, i)
    ensures var d := DotAt(From(name, i)); 0 < d && i + d == |name| ==> name[|name| - 1] != DOT
    ensures i == |name| > 0 ==> name[|name| - 1] == DOT
  {
    var d := DotAt(From(name, i));
    DotAtFirst(From(name, i));
    if 0 < d && i + d == |name| {
      assert From(name, i)[..d][d - 1] == name[|name| - 1];
    }
  }

  lemma RestKnownHere(entries: seq<Entry>, name: seq<byte>, i: nat)
    requires LabelStart(name, i) && Known(entries, From(name, i))
    ensures RestKnown(entries, name, i)
  {
  }

  lemma RunsOverExactly(name: seq<byte>, start: nat, bufLen: nat, t: Table, lacks: nat -> bool)
    ensures var s := Located(name, start, bufLen, t, lacks);
      && (s.Some? ==> s.value.end <= bufLen + 1)
      && (s.Some? && s.value.end > bufLen <==> RunsOver(t.entries, name, start, bufLen))
  {
    assert From(name, 0) == name;
    PlaceRunsOver(name, 0, start, bufLen, t, lacks);
  }

  /** For names without empty labels: the encoder runs over exactly if the labels end where the message must, and no
      rest of the name has been used before. */
  lemma WellFormedRunsOver(name: seq<byte>, start: nat, bufLen: nat, entries: seq<Entry>)
    requires WellFormed(name) && Short(name)
    ensures RunsOver(entries, name, start, bufLen) <==> start + |name| + 1 == bufLen && !RestKnown(entries, name, 0)
  {
    hide RestKnown, Split;
    JoinSplit(name);
    SplitDotFree(name);
    LastLabel(Split(name));
  }

  lemma {:induction false} SplitDotFree(s: seq<byte>)
    ensures forall l <- Split(s) :: DOT !in l
    decreases |s|
  {
    hide DotAt;
    var d := DotAt(s);
    DotAtFirst(s);
    SplitUnfold(s);
    if d < |s| {
      SplitDotFree(From(s, d + 1));
    } else {
      assert s[..d] == s;
    }
  }

  /** Names that are joined from good labels end in a byte of a label. */
  lemma {:induction false} LastLabel(ls: seq<Label>)
    requires ls != [] && forall l <- ls :: LabelOk(l) && DOT !in l
    ensures var s := Join(ls); s != [] && s[|s| - 1] != 0 && s[|s| - 1] != DOT
    decreases |ls|
  {
    if |ls| > 1 {
      LastLabel(ls[1..]);
    } else {
      assert LabelOk(ls[0]) && ls[0][|ls[0]| - 1] in ls[0];
    }
  }

  /** Three letters and four bytes for them: the zero becomes a fifth. */
  lemma RunsOverWitness(lacks: nat -> bool)
    ensures RunsOver([], [97, 98, 99], 0, 4)
    ensures Located([97, 98, 99], 0, 4, Table([], 0), lacks).Some?
    ensures Located([97, 98, 99], 0, 4, Table([], 0), lacks).value.end == 5
  {
    var abc: seq<byte> := [97, 98, 99];
    assert DotAt(abc) == 3 && Split(abc) == [abc];
    RunsOverExactly(abc, 0, 4, Table([], 0), lacks);
  }

  /** What the encoder returns and leaves in its table is what has been located. */
  predicate Agrees(r: int, t: Table, s: Option<Spot>) {
    if s.None? then r < 0 else r == s.value.end && t == s.value.table
  }

  lemma PlaceStep(name: seq<byte>, i: nat, j: nat, bufLen: nat, t: Table, lacks: nat -> bool)
    requires i <= |name|
    ensures var d := DotAt(From(name, i)); var u := Remembered(t, lacks, Entry(From(name, i), j));
      i + d <= |name|
      && Place(name, i, j, bufLen, t, lacks) ==
           if Known(t.entries, From(name, i)) then if j + 2 <= bufLen then Some(Spot(j + 2, t)) else None
           else if d > 63 || j + d + 1 > bufLen then None
           else if i + d < |name| then Place(name, i + d + 1, j + d + 1, bufLen, u, lacks)
           else Some(Spot(if d > 0 && name[i + d - 1] != 0 then j + d + 2 else j + d + 1, u))
  {
    hide Remembered, Known, DotAt;
  }

  /** Encodes a name at buf[start], pointing back to where the rest of it has been used already.  Of the array only the
      first bufLen bytes are meant for the message, but the zero behind the last label may be one more.
      Returns where the name ends, -1 if a label is too long, or -2 if there is no room. */
  method DnsnameToLabels(
      buf: array<byte>, bufLen: nat, start: nat, name: seq<byte>, table: LabelTable, ghost good: bool,
      ghost holes: set<nat>)
    returns (r: int)
    requires bufLen <= buf.Length && bufLen <= 0x4000 && forall h <- holes :: h < start
    requires RunsOver(table.entries, name, start, bufLen) ==> bufLen < buf.Length
    requires Below(table.entries, bufLen)
    requires good ==> start <= buf.Length && WellFormed(name) && TableOk(buf[..start], holes, table.entries)
    modifies buf, table
    ensures buf[..Least(start, buf.Length)] == old(buf[..Least(start, buf.Length)])
    ensures Agrees(r, table.Now(), Located(name, start, bufLen, old(table.Now()), table.lacks))
    ensures r == bufLen + 1 <==> RunsOver(old(table.entries), name, start, bufLen)
    ensures r == bufLen + 1 ==> buf[bufLen] == 0
    ensures r >= -2 && (r >= 0 ==> start < r <= bufLen + 1) && Below(table.entries, bufLen)
    ensures r >= 0 && good ==> Encoded(buf, holes, start, r, name, table.entries)
    ensures r == -1 ==> TooLong(name)
    ensures WellFormed(name) && Short(name) && start + |name| + 1 <= bufLen ==> r >= 0
  {
    hide Split, Under, WellFormed, Encoded, DotAt, AtLabel, Below, TooLong, TableOk, From, Place, Remembered,
      RunsOver, Known;
    RunsOverExactly(name, start, bufLen, table.Now(), table.lacks);
    if |name| > 255 { return -2; }
    var i, j := 0, start;
    ghost var starts: seq<nat> := [];
    ghost var n := |table.entries|;
    if good { UnderStart(buf[..start], holes, start, name, table.entries); }
    SplitAll(name);
    ghost var goal := Place(name, 0, start, bufLen, table.Now(), table.lacks);
    while true
      invariant i <= |name| && j == start + i && (i == 0 || j <= bufLen)
      invariant buf[..Least(start, buf.Length)] == old(buf[..Least(start, buf.Length)])
      invariant Below(table.entries, bufLen) && AtLabel(name, i, |starts|)
      invariant Place(name, i, j, bufLen, table.Now(), table.lacks) == goal
      invariant good ==> Under(buf[..j], holes, start, Split(name), starts, j, table.entries, n)
      decreases |name| - i
    {
      AtLabelBounds(name, i, |starts|);
      PlaceStep(name, i, j, bufLen, table.Now(), table.lacks);
      var ref := table.GetPos(From(name, i));
      if ref >= 0 {
        KnownAt(table.entries, From(name, i), ref);
        r := EncodePointer(buf, bufLen, j, ref, table, good, holes, start, name, i, starts, n);
        return;
      }
      Unknown(table.entries, From(name, i));
      var d := DotAt(From(name, i));
      if d > 63 { return -1; }
      if j + d + 1 > bufLen { return -2; }
      EncodeLabel(buf, bufLen, j, name, i, d, table, good, holes, start, starts, n);
      starts := starts + [j];
      j := j + 1 + d;
      if i + d == |name| { break; }
      i := i + d + 1;
    }
    r := EncodeZero(buf, bufLen, j, table, good, holes, start, name, starts, n);
  }

  lemma KnownAt(entries: seq<Entry>, name: seq<byte>, pos: nat)
    requires Entry(name, pos) in entries
    ensures Known(entries, name)
  {
  }

  lemma Unknown(entries: seq<Entry>, name: seq<byte>)
    requires forall e <- entries :: e.name != name
    ensures !Known(entries, name)
  {
  }

  /** The room for the name still takes the n bytes of a label. */
  predicate Takes(outLen: nat, n: nat, cap: nat) {
    (outLen == 0 || outLen + 1 < cap) && Dotted(outLen) + n < cap
  }

  /** The length of a name to which a label is about to be added. */
  function Dotted(outLen: nat): nat {
    if outLen == 0 then 0 else outLen + 1
  }

  /** The name so far, with a dot behind it unless it is empty. */
  function WithDot(out: seq<byte>): seq<byte> {
    if out == [] then [] else out + [DOT]
  }

  /** Appends a label to the cp bytes of the name so far, behind a dot unless it is the first. */
  method CopyLabel(packet: array<byte>, j: nat, labelLen: nat, nameOut: array<byte>, cp: nat)
    returns (ok: bool, end: nat)
    requires packet != nameOut && (cp == 0 || cp < nameOut.Length)
    requires Takes(cp, labelLen, nameOut.Length) ==> j + labelLen <= packet.Length
    modifies nameOut
    ensures ok == Takes(cp, labelLen, nameOut.Length) && (ok ==> end == Dotted(cp) + labelLen)
    ensures ok ==> end < nameOut.Length && nameOut[..end] == WithDot(old(nameOut[..cp])) + packet[j..j + labelLen]
  {
    ok, end := false, cp;
    ghost var out := nameOut[..cp];
    if end != 0 {
      if end + 1 >= nameOut.Length { return; }
      nameOut[end] := DOT;
      end := end + 1;
      assert nameOut[..end] == out + [DOT];
    }
    ghost var dotted := nameOut[..end];
    if end + labelLen >= nameOut.Length { return; }
    Memcpy(nameOut, end, packet[j..j + labelLen]);
    assert nameOut[..end + labelLen] == dotted + packet[j..j + labelLen];
    end := end + labelLen;
    ok := true;
  }

  /** One turn of the parser. */
  lemma ParseLabel(p: seq<byte>, j: nat, jumps: nat, out: seq<byte>, after: Option<nat>, cap: nat)
    requires jumps <= |p| && j < |p| && 0 < p[j] < 64
    ensures var n: nat := p[j];
      Parse(p, j, jumps, out, after, cap) ==
        if !Takes(|out|, n, cap) || j + 1 + n > |p| then None
        else Parse(p, j + 1 + n, jumps, WithDot(out) + p[j + 1..j + 1 + n], after, cap)
  {
  }

  lemma ParseOther(p: seq<byte>, j: nat, jumps: nat, out: seq<byte>, after: Option<nat>, cap: nat)
    requires jumps <= |p|
    ensures j >= |p| ==> Parse(p, j, jumps, out, after, cap) == None
    ensures j < |p| && p[j] == 0 && |out| >= cap ==> Parse(p, j, jumps, out, after, cap) == None
    ensures j < |p| && p[j] == 0 && |out| < cap ==>
      Parse(p, j, jumps, out, after, cap) == Some(Parsed(out, if after.Some? then after.value else j + 1))
    ensures j < |p| && p[j] >= 64 && j + 1 >= |p| ==> Parse(p, j, jumps, out, after, cap) == None
    ensures j + 1 < |p| && p[j] >= 64 ==>
      var target := Target(p[j], p[j + 1]);
      Parse(p, j, jumps, out, after, cap) ==
        if target >= |p| || jumps + 1 > |p| then None
        else Parse(p, target, jumps + 1, out, if after.Some? then after else Some(j + 2), cap)
  {
  }

  lemma PrefixSlice(s: seq<byte>, p: seq<byte>, i: nat, k: nat)
    requires p <= s && i <= k <= |p|
    ensures s[i..k] == p[i..k]
  {
  }

  /** The parser, with outLen bytes of the name so far, comes to a label that goes on behind the packet p, and still has
      room for it.  It then copies it, and finds out too late. */
  predicate Overreads(p: seq<byte>, j: nat, jumps: nat, outLen: nat, cap: nat)
    requires jumps <= |p|
    decreases |p| - jumps, if j <= |p| then |p| - j else 0
  {
    && j < |p| && p[j] != 0
    && if p[j] >= 64 then
         && j + 1 < |p| && Target(p[j], p[j + 1]) < |p| && jumps < |p|
         && Overreads(p, Target(p[j], p[j + 1]), jumps + 1, outLen, cap)
       else
         var n: nat := p[j];
         Takes(outLen, n, cap) && (j + 1 + n > |p| || Overreads(p, j + 1 + n, jumps, Dotted(outLen) + n, cap))
  }

  /** The end of the bytes that the parser reads from index j on. */
  function Reach(p: seq<byte>, j: nat, jumps: nat, outLen: nat, cap: nat): nat
    requires jumps <= |p|
    decreases |p| - jumps, if j <= |p| then |p| - j else 0
  {
    if j >= |p| then 0
    else if p[j] == 0 then j + 1
    else if p[j] >= 64 then
      if j + 1 >= |p| then j + 1
      else if Target(p[j], p[j + 1]) >= |p| || jumps + 1 > |p| then j + 2
      else Most(j + 2, Reach(p, Target(p[j], p[j + 1]), jumps + 1, outLen, cap))
    else
      var n: nat := p[j];
      if !Takes(outLen, n, cap) then j + 1
      else if j + 1 + n > |p| then j + 1 + n
      else Most(j + 1 + n, Reach(p, j + 1 + n, jumps, Dotted(outLen) + n, cap))
  }

  function Most(x: nat, y: nat): nat {
    if x >= y then x else y
  }

  /** A byte behind the packet is read exactly if there is such a label, and then the name is refused anyway. */
  lemma {:induction false} OverreadsExactly(
      p: seq<byte>, j: nat, jumps: nat, out: seq<byte>, after: Option<nat>, cap: nat)
    requires jumps <= |p|
    ensures Overreads(p, j, jumps, |out|, cap) <==> Reach(p, j, jumps, |out|, cap) > |p|
    ensures Reach(p, j, jumps, |out|, cap) <= |p| + 63
    ensures Overreads(p, j, jumps, |out|, cap) ==> Parse(p, j, jumps, out, after, cap) == None
    decreases |p| - jumps, if j <= |p| then |p| - j else 0
  {
    hide Target;
    if j < |p| && p[j] != 0 {
      if p[j] >= 64 {
        if j + 1 < |p| && Target(p[j], p[j + 1]) < |p| && jumps < |p| {
          OverreadsExactly(
            p, Target(p[j], p[j + 1]), jumps + 1, out, if after.Some? then after else Some(j + 2), cap);
        }
      } else {
        var n: nat := p[j];
        if Takes(|out|, n, cap) && j + 1 + n <= |p| {
          var dotted := if out == [] then out else out + [DOT];
          OverreadsExactly(p, j + 1 + n, jumps, dotted + p[j + 1..j + 1 + n], after, cap);
        }
      }
    }
  }

  /** A packet of one byte, which announces a label of 63. */
  lemma OverreadWitness(cap: nat)
    requires cap > 63
    ensures Overreads([63], 0, 0, 0, cap) && Reach([63], 0, 0, 0, cap) == 64
  {
  }

  /** Reads the name at index idx of a packet.  What a label reads behind the packet never counts, since the parser then
      finds itself outside the packet; only if there is such a label must the array be longer than the packet. */
  method NameParse(packet: array<byte>, length: nat, idx: nat, nameOut: array<byte>)
    returns (ok: bool, next: nat, ghost reach: nat)
    requires length <= packet.Length && packet != nameOut
    requires Overreads(packet[..length], idx, 0, 0, nameOut.Length) ==>
      Reach(packet[..length], idx, 0, 0, nameOut.Length) <= packet.Length
    modifies nameOut
    ensures var r := Parse(packet[..length], idx, 0, [], None, nameOut.Length);
      && ok == r.Some?
      && (ok ==> next == r.value.next && |r.value.name| < nameOut.Length
                 && nameOut[..|r.value.name|] == r.value.name && nameOut[|r.value.name|] == 0)
    ensures reach == Reach(packet[..length], idx, 0, 0, nameOut.Length)
    ensures reach > length <==> Overreads(packet[..length], idx, 0, 0, nameOut.Length)
  {
    hide Parse, Target, Reach, Overreads, Takes, Dotted, WithDot;
    ok, next, reach := false, 0, 0;
    var j: nat, ptrCount: nat, cp: nat := idx, 0, 0;
    var nameEnd: Option<nat> := None;
    ghost var p := packet[..length];
    ghost var want := Parse(p, idx, 0, [], None, nameOut.Length);
    ghost var far := Reach(p, idx, 0, 0, nameOut.Length);
    OverreadsExactly(p, idx, 0, [], None, nameOut.Length);
    ParseOther(p, idx, 0, [], None, nameOut.Length);
    while true
      invariant ptrCount <= length && (cp == 0 || cp < nameOut.Length) && packet[..length] == p
      invariant if j <= length then want == Parse(p, j, ptrCount, nameOut[..cp], nameEnd, nameOut.Length)
        else want == None
      invariant far == Most(reach, Reach(p, j, ptrCount, cp, nameOut.Length)) && far <= packet.Length
      decreases length - ptrCount, if j <= length then length - j + 1 else 0
    {
      ParseOther(p, j, ptrCount, nameOut[..cp], nameEnd, nameOut.Length);
      ReachStep(p, j, ptrCount, cp, nameOut.Length);
      if j >= length { return; }
      if 0 < packet[j] < 64 { ParseLabel(p, j, ptrCount, nameOut[..cp], nameEnd, nameOut.Length); }
      var labelLen: nat := packet[j];
      reach := Most(reach, j + 1);
      j := j + 1;
      if labelLen == 0 { break; }
      if labelLen >= 64 {
        if j >= length { return; }
        var low := packet[j];
        reach := Most(reach, j + 1);
        j := j + 1;
        if nameEnd.None? { nameEnd := Some(j); }
        j := Target(labelLen, low);
        if j >= length { return; }
        ptrCount := ptrCount + 1;
        if ptrCount > length { return; }
        continue;
      }
      var copied, end := CopyLabel(packet, j, labelLen, nameOut, cp);
      if !copied { return; }
      reach := Most(reach, j + labelLen);
      if j + labelLen <= length { PrefixSlice(packet[..], p, j, j + labelLen); }
      cp := end;
      j := j + labelLen;
      ReachStep(p, j, ptrCount, cp, nameOut.Length);
    }
    if cp >= nameOut.Length { return; }
    nameOut[cp] := 0;
    next := if nameEnd.Some? then nameEnd.value else j;
    ok := true;
  }

  lemma ReachStep(p: seq<byte>, j: nat, jumps: nat, outLen: nat, cap: nat)
    requires jumps <= |p|
    ensures Reach(p, j, jumps, outLen, cap) ==
      if j >= |p| then 0
      else if p[j] == 0 then j + 1
      else if p[j] >= 64 then
        if j + 1 >= |p| then j + 1
        else if Target(p[j], p[j + 1]) >= |p| || jumps + 1 > |p| then j + 2
        else Most(j + 2, Reach(p, Target(p[j], p[j + 1]), jumps + 1, outLen, cap))
      else if !Takes(outLen, p[j], cap) then j + 1
      else if j + 1 + p[j] > |p| then j + 1 + p[j]
      else Most(j + 1 + p[j], Reach(p, j + 1 + p[j], jumps, Dotted(outLen) + p[j], cap))
  {
    hide Target;
  }

  datatype Question = Question(name: seq<byte>, kind: nat, cls: nat)

  /** The data of a resource record: a name, or just bytes. */
  datatype Data = NameData(name: seq<byte>) | RawData(bytes: seq<byte>)

  datatype Item = Item(name: seq<byte>, kind: nat, cls: nat, ttl: nat, data: Data)

  predicate QuestionOk(q: Question) {
    q.kind < 0x1_0000 && q.cls < 0x1_0000
  }

  predicate ItemOk(item: Item) {
    item.kind < 0x1_0000 && item.cls < 0x1_0000 && item.ttl < 0x1_0000_0000 && DataOk(item.data)
  }

  /** The names of a response in the order in which they are written. */
  function QuestionNames(qs: seq<Question>): seq<seq<byte>> {
    if qs == [] then [] else QuestionNames(qs[..|qs| - 1]) + [qs[|qs| - 1].name]
  }

  function ItemNames(items: seq<Item>): seq<seq<byte>> {
    if items == [] then [] else ItemNames(items[..|items| - 1]) + NamesOf(items[|items| - 1])
  }

  function NamesOf(item: Item): seq<seq<byte>> {
    [item.name] + NamesOfData(item.data)
  }

  /** A name in a message, where it starts, and where reading goes on behind it. */
  datatype Placed = Placed(name: seq<byte>, pos: nat, next: nat)

  ghost predicate PlaceOk(p: seq<byte>, holes: set<nat>, e: Placed) {
    && e.pos < |p| && WellFormed(e.name) && Spells(p, holes, e.pos, e.pos, Split(e.name)) && Skip(p, e.pos) == e.next
  }

  ghost predicate PlacesOk(p: seq<byte>, holes: set<nat>, placed: seq<Placed>) {
    forall i | 0 <= i < |placed| :: PlaceOk(p, holes, placed[i])
  }

  lemma PlacesExtends(p: seq<byte>, q: seq<byte>, holes: set<nat>, more: set<nat>, placed: seq<Placed>)
    requires PlacesOk(p, holes, placed) && Extends(p, q, holes) && MoreHoles(p, holes, more)
    ensures PlacesOk(q, more, placed)
  {
    hide Spells, Skip, Split, WellFormed;
    forall i | 0 <= i < |placed| ensures PlaceOk(q, more, placed[i]) {
      var e := placed[i];
      assert PlaceOk(p, holes, e);
      SpellsExtends(p, q, holes, more, e.pos, e.pos, Split(e.name));
      SkipExtends(p, q, holes, e.pos, e.pos, Split(e.name));
    }
  }

  /** Bytes that are not part of a name, and where they start. */
  datatype Field = Field(at: nat, bytes: seq<byte>)

  ghost predicate FieldOk(p: seq<byte>, holes: set<nat>, f: Field) {
    && f.at + |f.bytes| <= |p| && p[f.at..f.at + |f.bytes|] == f.bytes
    && forall k | f.at <= k < f.at + |f.bytes| :: k !in holes
  }

  ghost predicate FieldsOk(p: seq<byte>, holes: set<nat>, fields: seq<Field>) {
    forall i | 0 <= i < |fields| :: FieldOk(p, holes, fields[i])
  }

  lemma FieldsExtend(p: seq<byte>, q: seq<byte>, holes: set<nat>, more: set<nat>, fields: seq<Field>)
    requires FieldsOk(p, holes, fields) && Extends(p, q, holes) && MoreHoles(p, holes, more)
    ensures FieldsOk(q, more, fields)
  {
    forall i | 0 <= i < |fields| ensures FieldOk(q, more, fields[i]) {
      var f := fields[i];
      assert FieldOk(p, holes, f);
      forall k | 0 <= k < |f.bytes| ensures q[f.at + k] == f.bytes[k] {
        assert p[f.at..f.at + |f.bytes|][k] == p[f.at + k];
      }
    }
  }

  lemma FieldsSnoc(p: seq<byte>, holes: set<nat>, fields: seq<Field>, f: Field)
    requires FieldsOk(p, holes, fields) && FieldOk(p, holes, f)
    ensures FieldsOk(p, holes, fields + [f])
  {
  }

  /** What a message holds so far. */
  datatype Ledger = Ledger(places: seq<Placed>, fields: seq<Field>)

  function Names(placed: seq<Placed>): seq<seq<byte>> {
    seq(|placed|, i requires 0 <= i < |placed| => placed[i].name)
  }

  lemma NamesSnoc(placed: seq<Placed>, e: Placed)
    ensures Names(placed + [e]) == Names(placed) + [e.name]
  {
  }

  /** A message up to its current end: its fields can be read back, and if all its names are well-formed, so can they
      and the table's. */
  ghost predicate Message(p: seq<byte>, holes: set<nat>, entries: seq<Entry>, done: Ledger, good: bool) {
    && (forall h <- holes :: h < |p|)
    && FieldsOk(p, holes, done.fields)
    && (good ==> TableOk(p, holes, entries) && PlacesOk(p, holes, done.places))
  }

  lemma MessageExtends(
      p: seq<byte>, q: seq<byte>, holes: set<nat>, more: set<nat>, entries: seq<Entry>, done: Ledger, good: bool)
    requires Message(p, holes, entries, done, good) && Extends(p, q, holes) && MoreHoles(p, holes, more)
    requires forall h <- more :: h < |q|
    ensures Message(q, more, entries, done, good)
  {
    hide TableOk, PlacesOk, FieldsOk;
    FieldsExtend(p, q, holes, more, done.fields);
    if good {
      TableExtends(p, q, holes, more, entries);
      PlacesExtends(p, q, holes, more, done.places);
    }
  }

  method AppendBytes(buf: array<byte>, bufLen: nat, j: nat, bytes: seq<byte>) returns (ok: bool)
    requires bufLen <= buf.Length && j <= buf.Length
    modifies buf
    ensures ok == (j + |bytes| <= bufLen)
    ensures buf[..j] == old(buf[..j]) && (ok ==> buf[j..j + |bytes|] == bytes)
  {
    if j + |bytes| > bufLen { return false; }
    Memcpy(buf, j, bytes);
    ok := true;
  }

  /** The low sixteen bits of a number, the high byte first. */
  function Bytes16(x: nat): (r: seq<byte>)
    ensures |r| == 2
  {
    [x / 256 % 256, x % 256]
  }

  function Bytes32(x: nat): (r: seq<byte>)
    ensures |r| == 4
  {
    Bytes16(x / 0x1_0000) + Bytes16(x)
  }

  function Number(s: seq<byte>): nat {
    if s == [] then 0 else Number(s[..|s| - 1]) * 256 + s[|s| - 1]
  }

  /** Numbers that fit are read back. */
  lemma NumberRoundTrip(x: nat)
    ensures x < 0x1_0000 ==> Number(Bytes16(x)) == x
    ensures x < 0x1_0000_0000 ==> Number(Bytes32(x)) == x
  {
    hide Number;
    var y := x / 0x1_0000;
    NumberTwo(x / 256 % 256, x % 256);
    NumberFour(y / 256 % 256, y % 256, x / 256 % 256, x % 256);
    assert Bytes32(x) == [y / 256 % 256, y % 256, x / 256 % 256, x % 256];
    TwoDigits(x);
    TwoDigits(y);
    Halves(x);
  }

  lemma TwoDigits(x: nat)
    ensures x / 256 % 256 * 256 + x % 256 == x % 0x1_0000
  {
  }

  lemma Halves(x: nat)
    ensures x == x / 0x1_0000 * 0x1_0000 + x % 0x1_0000
    ensures x < 0x1_0000_0000 ==> x / 0x1_0000 % 0x1_0000 == x / 0x1_0000
    ensures x < 0x1_0000 ==> x % 0x1_0000 == x
  {
  }

  lemma NumberTwo(a: byte, b: byte)
    ensures Number([a, b]) == a * 256 + b
  {
    NumberSnoc([], a);
    NumberSnoc([a], b);
    assert [] + [a] == [a] && [a] + [b] == [a, b];
  }

  lemma NumberFour(a: byte, b: byte, c: byte, d: byte)
    ensures Number([a, b, c, d]) == ((a * 256 + b) * 256 + c) * 256 + d
  {
    NumberTwo(a, b);
    NumberSnoc([a, b], c);
    NumberSnoc([a, b, c], d);
    assert [a, b] + [c] == [a, b, c] && [a, b, c] + [d] == [a, b, c, d];
  }

  lemma NumberSnoc(s: seq<byte>, x: byte)
    ensures Number(s + [x]) == Number(s) * 256 + x && Number([]) == 0
  {
    assert (s + [x])[..|s|] == s;
  }

  const RESPONSE_MAX: nat := 1500

  /** What a message consists of: names, in front of which two bytes may say how long they have become, and other
      bytes. */
  datatype Part = Named(name: seq<byte>, measured: bool) | Fixed(bytes: seq<byte>)

  function Gap(part: Part): nat {
    if part.Named? && part.measured then 2 else 0
  }

  datatype Parts = Done | Then(first: Part, rest: Parts)

  /** Where writing has got to behind a part; None if it gives up there. */
  function After(s: Spot, part: Part, lacks: nat -> bool): Option<Spot> {
    match part
    case Named(name, _) => Located(name, s.end + Gap(part), RESPONSE_MAX, s.table, lacks)
    case Fixed(bytes) => if s.end + |bytes| <= RESPONSE_MAX then Some(Spot(s.end + |bytes|, s.table)) else None
  }

  /** A message that has been written: its end, and what it holds. */
  datatype Layout = Layout(end: nat, holds: Ledger)

  /** What writing the parts behind s comes to if the message so far holds `done`; None if it gives up. */
  function LaidOut(s: Spot, parts: Parts, lacks: nat -> bool, done: Ledger): Option<Layout>
    decreases parts
  {
    match parts
    case Done => Some(Layout(s.end, done))
    case Then(part, rest) =>
      match After(s, part, lacks)
      case None => None
      case Some(t) => LaidOut(t, rest, lacks, WithPart(done, part, s.end, t.end))
  }

  /** A message that also holds a part from `start` to `end`: a name, perhaps with its length in front, or bytes. */
  function WithPart(done: Ledger, part: Part, start: nat, end: nat): Ledger {
    match part
    case Named(name, measured) =>
      var places := done.places + [Placed(name, start + Gap(part), end)];
      Ledger(places, if measured then done.fields + [Field(start, Measure(start, end))] else done.fields)
    case Fixed(bytes) => Ledger(done.places, done.fields + [Field(start, bytes)])
  }

  /** The length of what lies between the two bytes at `start` and `end`. */
  function Measure(start: nat, end: nat): (r: seq<byte>)
    ensures |r| == 2
  {
    Bytes16(if end >= start + 2 then end - start - 2 else 0)
  }

  lemma LaidOutThen(s: Spot, part: Part, rest: Parts, lacks: nat -> bool, done: Ledger)
    ensures LaidOut(s, Then(part, rest), lacks, done) ==
      match After(s, part, lacks)
      case None => None
      case Some(t) => LaidOut(t, rest, lacks, WithPart(done, part, s.end, t.end))
  {
  }

  /** The parts can be read in p one after the other, without gaps, from `at` to `end`, with the names at their places:
      bytes as they were given, and in front of a measured name the length of what it has become. */
  predicate Reads(p: seq<byte>, at: nat, parts: Parts, places: seq<Placed>, end: nat)
    decreases parts
  {
    match parts
    case Done => places == [] && at == end
    case Then(part, rest) =>
      if part.Fixed? then
        at + |part.bytes| <= |p| && p[at..at + |part.bytes|] == part.bytes
        && Reads(p, at + |part.bytes|, rest, places, end)
      else
        && places != [] && places[0].name == part.name && places[0].pos == at + Gap(part)
        && (part.measured ==> at + 2 <= |p| && p[at..at + 2] == Measure(at, places[0].next))
        && Reads(p, places[0].next, rest, places[1..], end)
  }

  lemma {:induction false} LaidOutReads(p: seq<byte>, s: Spot, parts: Parts, lacks: nat -> bool, done: Ledger)
    requires var l := LaidOut(s, parts, lacks, done); l.Some? && FieldsOk(p, {}, l.value.holds.fields)
    ensures var l := LaidOut(s, parts, lacks, done).value;
      && done.places <= l.holds.places && done.fields <= l.holds.fields
      && Reads(p, s.end, parts, l.holds.places[|done.places|..], l.end)
    decreases parts
  {
    if parts.Then? {
      hide Bytes16, After, FieldsOk, Measure;
      var l := LaidOut(s, parts, lacks, done).value;
      var t := After(s, parts.first, lacks).value;
      var more := WithPart(done, parts.first, s.end, t.end);
      LaidOutReads(p, t, parts.rest, lacks, more);
      AfterFixed(s, parts.first, lacks);
      if |more.fields| > |done.fields| {
        assert l.holds.fields[|done.fields|] == more.fields[|done.fields|];
        FieldAt(p, l.holds.fields, |done.fields|);
      }
      if parts.first.Named? {
        assert l.holds.places[|done.places|] == more.places[|done.places|];
        assert l.holds.places[|done.places|..][1..] == l.holds.places[|more.places|..];
      }
    }
  }

  lemma FieldAt(p: seq<byte>, fields: seq<Field>, i: nat)
    requires FieldsOk(p, {}, fields) && i < |fields|
    ensures FieldOk(p, {}, fields[i])
  {
  }

  lemma AfterFixed(s: Spot, part: Part, lacks: nat -> bool)
    ensures part.Fixed? && After(s, part, lacks).Some? ==> After(s, part, lacks).value.end == s.end + |part.bytes|
  {
  }

  /** All names can be encoded. */
  predicate GoodParts(parts: Parts) {
    match parts
    case Done => true
    case Then(part, rest) => (part.Named? ==> WellFormed(part.name) && Short(part.name)) && GoodParts(rest)
  }

  lemma {:induction false} PlaceFits(
      name: seq<byte>, i: nat, m: nat, j: nat, bufLen: nat, t: Table, lacks: nat -> bool)
    requires AtLabel(name, i, m) && WellFormed(name) && j + |name| - i + 2 <= bufLen
    ensures Place(name, i, j, bufLen, t, lacks).Some?
    decreases |name| - i
  {
    hide AtLabel, WellFormed, Known, Remembered, Place, DotAt, From;
    AtLabelBounds(name, i, m);
    PlaceStep(name, i, j, bufLen, t, lacks);
    var d := DotAt(From(name, i));
    FromNext(name, i, d, m);
    if i + d < |name| {
      PlaceFits(name, i + d + 1, m + 1, j + d + 1, bufLen, Remembered(t, lacks, Entry(From(name, i), j)), lacks);
    }
  }

  /** Good names that have room without compression are written. */
  lemma {:induction false} PlainLaidOut(s: Spot, parts: Parts, lacks: nat -> bool, done: Ledger)
    requires GoodParts(parts) && s.end + PlainSize(parts) <= RESPONSE_MAX
    ensures var l := LaidOut(s, parts, lacks, done); l.Some? && l.value.end <= s.end + PlainSize(parts)
    decreases parts
  {
    hide Place, WellFormed;
    if parts.Then? {
      var part := parts.first;
      if part.Named? {
        SplitAll(part.name);
        PlaceFits(part.name, 0, 0, s.end + Gap(part), RESPONSE_MAX, s.table, lacks);
        PlaceAtMost(part.name, 0, s.end + Gap(part), RESPONSE_MAX, s.table, lacks);
      }
      var t := After(s, part, lacks).value;
      PlainLaidOut(t, parts.rest, lacks, WithPart(done, part, s.end, t.end));
    }
  }

  /** One of the names runs over, and writing gets that far. */
  predicate Spills(s: Spot, parts: Parts, lacks: nat -> bool)
    decreases parts
  {
    || s.end > RESPONSE_MAX
    || (parts.Then? && var t := After(s, parts.first, lacks); t.Some? && Spills(t.value, parts.rest, lacks))
  }

  lemma SpillsThen(s: Spot, part: Part, rest: Parts, lacks: nat -> bool)
    ensures Spills(s, Then(part, rest), lacks) ==
      (s.end > RESPONSE_MAX || (var t := After(s, part, lacks); t.Some? && Spills(t.value, rest, lacks)))
    ensures s.end <= RESPONSE_MAX && part.Named? ==>
      RunsOver(s.table.entries, part.name, s.end + Gap(part), RESPONSE_MAX) ==> Spills(s, Then(part, rest), lacks)
  {
    if part.Named? { RunsOverExactly(part.name, s.end + Gap(part), RESPONSE_MAX, s.table, lacks); }
  }

  /** The size of the parts if no name is compressed. */
  function PlainSize(parts: Parts): nat {
    match parts
    case Done => 0
    case Then(Named(name, measured), rest) => (if measured then 2 else 0) + |name| + 2 + PlainSize(rest)
    case Then(Fixed(bytes), rest) => |bytes| + PlainSize(rest)
  }

  lemma {:induction false} PlaceAtMost(name: seq<byte>, i: nat, j: nat, bufLen: nat, t: Table, lacks: nat -> bool)
    requires i <= |name|
    ensures var s := Place(name, i, j, bufLen, t, lacks); s.Some? ==> s.value.end <= j + |name| - i + 2
    decreases |name| - i
  {
    hide Remembered, Known, DotAt;
    var d := DotAt(From(name, i));
    if i + d < |name| {
      PlaceAtMost(name, i + d + 1, j + d + 1, bufLen, Remembered(t, lacks, Entry(From(name, i), j)), lacks);
    }
  }

  /** A message that has room without compression is written without running over. */
  lemma {:induction false} PlainNeverSpills(s: Spot, parts: Parts, lacks: nat -> bool)
    requires s.end + PlainSize(parts) <= RESPONSE_MAX
    ensures !Spills(s, parts, lacks)
    decreases parts
  {
    hide Place;
    if parts.Then? {
      var u := After(s, parts.first, lacks);
      if parts.first.Named? {
        PlaceAtMost(parts.first.name, 0, s.end + Gap(parts.first), RESPONSE_MAX, s.table, lacks);
      }
      if u.Some? { PlainNeverSpills(u.value, parts.rest, lacks); }
    }
  }

  /** An array of this length has room for whatever is written. */
  predicate Room(length: nat, s: Spot, parts: Parts, lacks: nat -> bool) {
    RESPONSE_MAX <= length && (Spills(s, parts, lacks) ==> RESPONSE_MAX < length)
  }

  /** The byte behind the message has been written. */
  predicate Spilt(buf: array<byte>)
    reads buf
  {
    RESPONSE_MAX < buf.Length && buf[RESPONSE_MAX] == 0
  }

  function QuestionParts(qs: seq<Question>, rest: Parts): Parts {
    if qs == [] then rest else QuestionPart(qs[0], QuestionParts(qs[1..], rest))
  }

  function QuestionPart(q: Question, rest: Parts): Parts {
    Then(Named(q.name, false), Then(Fixed(Bytes16(q.kind) + Bytes16(q.cls)), rest))
  }

  function DataPart(data: Data): Part {
    match data
    case NameData(name) => Named(name, true)
    case RawData(bytes) => Fixed(Bytes16(|bytes|) + bytes)
  }

  function ItemPart(item: Item, rest: Parts): Parts {
    Then(Named(item.name, false), Then(Fixed(KindOf(item)), Then(DataPart(item.data), rest)))
  }

  /** The type, class and time to live of a record. */
  function KindOf(item: Item): (r: seq<byte>)
    ensures |r| == 8
  {
    Bytes16(item.kind) + Bytes16(item.cls) + Bytes32(item.ttl)
  }

  function ItemParts(items: seq<Item>, rest: Parts): Parts {
    if items == [] then rest else ItemPart(items[0], ItemParts(items[1..], rest))
  }

  lemma QuestionPartsAt(qs: seq<Question>, i: nat, rest: Parts)
    requires i < |qs|
    ensures QuestionParts(qs[i..], rest) == QuestionPart(qs[i], QuestionParts(qs[i + 1..], rest))
  {
    assert qs[i..][1..] == qs[i + 1..];
  }

  lemma ItemPartsAt(items: seq<Item>, i: nat, rest: Parts)
    requires i < |items|
    ensures ItemParts(items[i..], rest) == ItemPart(items[i], ItemParts(items[i + 1..], rest))
  {
    assert items[i..][1..] == items[i + 1..];
  }

  lemma PartsEnds(qs: seq<Question>, items: seq<Item>, rest: Parts)
    ensures QuestionParts(qs[|qs|..], rest) == rest && QuestionParts(qs[0..], rest) == QuestionParts(qs, rest)
    ensures ItemParts(items[|items|..], rest) == rest && ItemParts(items[0..], rest) == ItemParts(items, rest)
  {
    assert qs[0..] == qs && items[0..] == items;
  }

  /** The bytes of the header are as they were. */
  twostate predicate HeaderKept(buf: array<byte>)
    reads buf
  {
    buf.Length >= 12 && forall k | 0 <= k < 12 :: buf[k] == old(buf[k])
  }

  /** Writes a name and remembers where. */
  method AppendName(
      buf: array<byte>, j: nat, name: seq<byte>, table: LabelTable,
      ghost good: bool, ghost holes: set<nat>, ghost done: Ledger)
    returns (r: int, ghost now: Ledger)
    requires RESPONSE_MAX <= buf.Length && Below(table.entries, RESPONSE_MAX)
    requires RunsOver(table.entries, name, j, RESPONSE_MAX) ==> RESPONSE_MAX < buf.Length
    requires j <= buf.Length ==> Message(buf[..j], holes, table.entries, done, good)
    requires (forall h <- holes :: h < j) && (good ==> WellFormed(name))
    modifies buf, table
    ensures buf[..Least(j, buf.Length)] == old(buf[..Least(j, buf.Length)]) && Below(table.entries, RESPONSE_MAX)
    ensures Agrees(r, table.Now(), Located(name, j, RESPONSE_MAX, old(table.Now()), table.lacks))
    ensures r > RESPONSE_MAX ==> Spilt(buf)
    ensures r >= 0 ==> j < r <= RESPONSE_MAX + 1 && r <= buf.Length
    ensures r >= 0 ==> Message(buf[..r], holes, table.entries, now, good)
    ensures r >= 0 ==> now == Ledger(done.places + [Placed(name, j, r)], done.fields)
    ensures j >= 12 ==> HeaderKept(buf)
  {
    hide TableOk, PlacesOk, FieldsOk, Spells, Split, WellFormed, Skip, Below, RunsOver, Located;
    ghost var fits := good && j <= buf.Length;
    ghost var p := if j <= buf.Length then buf[..j] else [];
    r := DnsnameToLabels(buf, RESPONSE_MAX, j, name, table, fits, holes);
    now := done;
    assert j >= 12 ==> forall k | 0 <= k < 12 :: buf[..Least(j, buf.Length)][k] == buf[k];
    if r >= 0 {
      now := Ledger(done.places + [Placed(name, j, r)], done.fields);
      ghost var q := buf[..r];
      assert q[..j] == p;
      FieldsExtend(p, q, holes, holes, done.fields);
      if good {
        PlacesExtends(p, q, holes, holes, done.places);
        PlacesSnoc(q, holes, done.places, Placed(name, j, r));
      }
    }
  }

  lemma PlacesSnoc(p: seq<byte>, holes: set<nat>, placed: seq<Placed>, e: Placed)
    requires PlacesOk(p, holes, placed) && PlaceOk(p, holes, e)
    ensures PlacesOk(p, holes, placed + [e])
  {
  }

  /** Writes bytes that are not part of a name. */
  method AppendFixed(
      buf: array<byte>, j: nat, bytes: seq<byte>,
      ghost entries: seq<Entry>, ghost good: bool, ghost done: Ledger)
    returns (ok: bool, ghost now: Ledger)
    requires RESPONSE_MAX <= buf.Length && j <= buf.Length && Message(buf[..j], {}, entries, done, good)
    modifies buf
    ensures ok == (j + |bytes| <= RESPONSE_MAX) && buf[..j] == old(buf[..j])
    ensures now == Ledger(done.places, done.fields + [Field(j, bytes)])
    ensures ok ==> Message(buf[..j + |bytes|], {}, entries, now, good)
    ensures j >= 12 ==> HeaderKept(buf)
  {
    hide Message, FieldsOk;
    ghost var p := buf[..j];
    now := Ledger(done.places, done.fields + [Field(j, bytes)]);
    ok := AppendBytes(buf, RESPONSE_MAX, j, bytes);
    assert j >= 12 ==> forall k | 0 <= k < 12 :: buf[..j][k] == buf[k];
    if ok {
      ghost var q := buf[..j + |bytes|];
      assert q[..j] == p && q[j..j + |bytes|] == buf[j..j + |bytes|];
      MessageExtends(p, q, {}, {}, entries, done, good);
      MessageField(q, {}, entries, done, good, Field(j, bytes));
    }
  }

  lemma MessageField(p: seq<byte>, holes: set<nat>, entries: seq<Entry>, done: Ledger, good: bool, f: Field)
    requires Message(p, holes, entries, done, good) && FieldOk(p, holes, f)
    ensures Message(p, holes, entries, Ledger(done.places, done.fields + [f]), good)
  {
    hide TableOk, PlacesOk;
    FieldsSnoc(p, holes, done.fields, f);
  }

  lemma SpiltKept(buf: array<byte>, p: seq<byte>)
    requires RESPONSE_MAX < |p| <= buf.Length && buf[..|p|] == p && p[RESPONSE_MAX] == 0
    ensures Spilt(buf)
  {
    assert buf[..|p|][RESPONSE_MAX] == buf[RESPONSE_MAX];
  }

  /** Writing the questions comes to a name that the encoder refuses. */
  predicate Refused(s: Spot, qs: seq<Question>, lacks: nat -> bool)
    decreases |qs|
  {
    qs != [] &&
    match Located(qs[0].name, s.end, RESPONSE_MAX, s.table, lacks)
    case None => true
    case Some(t) => t.end + 4 <= RESPONSE_MAX && Refused(Spot(t.end + 4, t.table), qs[1..], lacks)
  }

  lemma RefusedStep(s: Spot, qs: seq<Question>, i: nat, lacks: nat -> bool)
    requires i <= |qs|
    ensures Refused(s, qs[i..], lacks) <==>
      i < |qs| &&
      match Located(qs[i].name, s.end, RESPONSE_MAX, s.table, lacks)
      case None => true
      case Some(t) => t.end + 4 <= RESPONSE_MAX && Refused(Spot(t.end + 4, t.table), qs[i + 1..], lacks)
    ensures qs[0..] == qs
  {
    if i < |qs| { assert qs[i..][1..] == qs[i + 1..]; }
  }

  /** Writes a question: its name, type and class. */
  method AppendQuestion(
      buf: array<byte>, j: nat, q: Question, table: LabelTable, ghost good: bool, ghost done: Ledger, ghost rest: Parts)
    returns (r: int, overflow: bool, ghost now: Ledger)
    requires Room(buf.Length, Spot(j, table.Now()), QuestionPart(q, rest), table.lacks)
    requires 12 <= j <= RESPONSE_MAX && Below(table.entries, RESPONSE_MAX) && QuestionOk(q)
    requires Message(buf[..j], {}, table.entries, done, good) && (good ==> WellFormed(q.name))
    modifies buf, table
    ensures Below(table.entries, RESPONSE_MAX) && HeaderKept(buf)
    ensures overflow ==> r >= 0
    ensures r >= 0 && !overflow ==> j <= r <= RESPONSE_MAX && Message(buf[..r], {}, table.entries, now, good)
    ensures
      match old(Located(q.name, j, RESPONSE_MAX, table.Now(), table.lacks))
      case None => r < 0
      case Some(t) =>
        r >= 0 && overflow == (t.end + 4 > RESPONSE_MAX)
          && (!overflow ==> Spot(r, table.Now()) == Spot(t.end + 4, t.table))
    ensures r >= 0 && !overflow ==> Names(now.places) == Names(done.places) + [q.name]
    ensures var laid := old(LaidOut(Spot(j, table.Now()), QuestionPart(q, rest), table.lacks, done));
      laid == if r >= 0 && !overflow then LaidOut(Spot(r, table.Now()), rest, table.lacks, now) else None
    ensures var spills := old(Spills(Spot(j, table.Now()), QuestionPart(q, rest), table.lacks));
      if r >= 0 && !overflow then spills == Spills(Spot(r, table.Now()), rest, table.lacks) else spills ==> Spilt(buf)
  {
    hide Message, Below, WellFormed, Spills, RunsOver, Located, LaidOut, Names;
    ghost var fixed := Fixed(Bytes16(q.kind) + Bytes16(q.cls));
    SpillsThen(Spot(j, table.Now()), Named(q.name, false), Then(fixed, rest), table.lacks);
    LaidOutThen(Spot(j, table.Now()), Named(q.name, false), Then(fixed, rest), table.lacks, done);
    overflow := false;
    r, now := AppendName(buf, j, q.name, table, good, {}, done);
    if r < 0 { return; }
    NamesSnoc(done.places, Placed(q.name, j, r));
    SpillsThen(Spot(r, table.Now()), fixed, rest, table.lacks);
    LaidOutThen(Spot(r, table.Now()), fixed, rest, table.lacks, now);
    ghost var p := buf[..r];
    var ok;
    ok, now := AppendFixed(buf, r, Bytes16(q.kind) + Bytes16(q.cls), table.entries, good, now);
    if !ok {
      if r > RESPONSE_MAX { SpiltKept(buf, p); }
      return r, true, now;
    }
    r := r + 4;
  }

  /** Writes the name that is the data of a record behind its length, which is put in later. */
  method AppendNameData(
      buf: array<byte>, j: nat, name: seq<byte>, table: LabelTable, ghost good: bool, ghost done: Ledger)
    returns (r: int, ghost now: Ledger)
    requires RESPONSE_MAX <= buf.Length && 12 <= j <= RESPONSE_MAX && Below(table.entries, RESPONSE_MAX)
    requires RunsOver(table.entries, name, j + 2, RESPONSE_MAX) ==> RESPONSE_MAX < buf.Length
    requires Message(buf[..j], {}, table.entries, done, good) && (good ==> WellFormed(name))
    modifies buf, table
    ensures Below(table.entries, RESPONSE_MAX) && HeaderKept(buf)
    ensures Agrees(r, table.Now(), Located(name, j + 2, RESPONSE_MAX, old(table.Now()), table.lacks))
    ensures r > RESPONSE_MAX ==> Spilt(buf)
    ensures r >= 0 ==> j + 2 < r <= RESPONSE_MAX + 1 && r <= buf.Length
    ensures r >= 0 ==> Message(buf[..r], {}, table.entries, now, good)
    ensures r >= 0 ==>
      now == Ledger(done.places + [Placed(name, j + 2, r)], done.fields + [Field(j, Bytes16(r - j - 2))])
  {
    hide Message, Below, WellFormed, Located, RunsOver;
    ghost var more := {j, j + 1};
    if j + 2 <= buf.Length {
      assert buf[..j + 2][..j] == buf[..j];
      MessageExtends(buf[..j], buf[..j + 2], {}, more, table.entries, done, good);
    }
    r, now := AppendName(buf, j + 2, name, table, good, more, done);
    if r >= 0 {
      ghost var p := buf[..r];
      buf[j] := (r - j - 2) / 256;
      buf[j + 1] := (r - j - 2) % 256;
      ghost var f := Field(j, Bytes16(r - j - 2));
      MessageExtends(p, buf[..r], more, {}, table.entries, now, good);
      assert buf[..r][j..j + 2] == f.bytes;
      MessageField(buf[..r], {}, table.entries, now, good, f);
      now := Ledger(now.places, now.fields + [f]);
    }
  }

  predicate DataOk(data: Data) {
    data.RawData? ==> |data.bytes| < 0x1_0000
  }

  function NamesOfData(data: Data): seq<seq<byte>> {
    if data.NameData? then [data.name] else []
  }

  /** Writes the data of a record with its length. */
  method AppendData(
      buf: array<byte>, j: nat, data: Data, table: LabelTable, ghost good: bool, ghost done: Ledger, ghost rest: Parts)
    returns (ok: bool, r: nat, ghost now: Ledger)
    requires Room(buf.Length, Spot(j, table.Now()), Then(DataPart(data), rest), table.lacks)
    requires 12 <= j <= RESPONSE_MAX && Below(table.entries, RESPONSE_MAX) && DataOk(data)
    requires Message(buf[..j], {}, table.entries, done, good)
    requires good && data.NameData? ==> WellFormed(data.name)
    modifies buf, table
    ensures Below(table.entries, RESPONSE_MAX) && HeaderKept(buf)
    ensures ok ==> j <= r <= RESPONSE_MAX + 1 && r <= buf.Length && (r > RESPONSE_MAX ==> Spilt(buf))
    ensures ok ==> Message(buf[..r], {}, table.entries, now, good)
    ensures ok ==> Names(now.places) == Names(done.places) + NamesOfData(data)
    ensures var laid := old(LaidOut(Spot(j, table.Now()), Then(DataPart(data), rest), table.lacks, done));
      laid == if ok then LaidOut(Spot(r, table.Now()), rest, table.lacks, now) else None
    ensures var spills := old(Spills(Spot(j, table.Now()), Then(DataPart(data), rest), table.lacks));
      if ok then spills == Spills(Spot(r, table.Now()), rest, table.lacks) else !spills
  {
    hide Message, Below, WellFormed, Names, Spills, RunsOver, Located, LaidOut, Bytes16;
    SpillsThen(Spot(j, table.Now()), DataPart(data), rest, table.lacks);
    LaidOutThen(Spot(j, table.Now()), DataPart(data), rest, table.lacks, done);
    ok, r, now := false, j, done;
    match data
    case NameData(name) =>
      var k;
      k, now := AppendNameData(buf, j, name, table, good, done);
      ok := k >= 0;
      if ok {
        NamesSnoc(done.places, Placed(name, j + 2, k));
        r := k;
      }
    case RawData(bytes) =>
      ok, now := AppendFixed(buf, j, Bytes16(|bytes|) + bytes, table.entries, good, done);
      r := j + 2 + |bytes|;
  }

  /** Writes a resource record.  `ok` is false if there is no room or a name is bad. */
  method AppendItem(
      buf: array<byte>, j: nat, item: Item, table: LabelTable, ghost good: bool, ghost done: Ledger, ghost rest: Parts)
    returns (ok: bool, r: nat, ghost now: Ledger)
    requires Room(buf.Length, Spot(j, table.Now()), ItemPart(item, rest), table.lacks)
    requires 12 <= j <= RESPONSE_MAX + 1 && j <= buf.Length && (j > RESPONSE_MAX ==> Spilt(buf))
    requires Below(table.entries, RESPONSE_MAX) && ItemOk(item)
    requires Message(buf[..j], {}, table.entries, done, good)
    requires good ==> WellFormed(item.name) && (item.data.NameData? ==> WellFormed(item.data.name))
    modifies buf, table
    ensures Below(table.entries, RESPONSE_MAX) && HeaderKept(buf)
    ensures ok ==> j <= r <= RESPONSE_MAX + 1 && r <= buf.Length && (r > RESPONSE_MAX ==> Spilt(buf))
    ensures ok ==> Message(buf[..r], {}, table.entries, now, good)
    ensures ok ==> Names(now.places) == Names(done.places) + NamesOf(item)
    ensures var laid := old(LaidOut(Spot(j, table.Now()), ItemPart(item, rest), table.lacks, done));
      laid == if ok then LaidOut(Spot(r, table.Now()), rest, table.lacks, now) else None
    ensures var spills := old(Spills(Spot(j, table.Now()), ItemPart(item, rest), table.lacks));
      if ok then spills == Spills(Spot(r, table.Now()), rest, table.lacks) else spills ==> Spilt(buf)
  {
    hide Message, Below, WellFormed, Names, Spills, RunsOver, Located, LaidOut, KindOf;
    ok, r, now := false, j, done;
    ghost var data := Then(DataPart(item.data), rest);
    SpillsThen(Spot(j, table.Now()), Named(item.name, false), Then(Fixed(KindOf(item)), data), table.lacks);
    LaidOutThen(Spot(j, table.Now()), Named(item.name, false), Then(Fixed(KindOf(item)), data), table.lacks, done);
    NeverBehind(table.Now(), item.name, j);
    ghost var p := buf[..j];
    var k: int;
    k, now := AppendName(buf, j, item.name, table, good, {}, done);
    if k < 0 {
      if j > RESPONSE_MAX { SpiltKept(buf, p); }
      return;
    }
    NamesSnoc(done.places, Placed(item.name, j, k));
    LaidOutThen(Spot(k, table.Now()), Fixed(KindOf(item)), data, table.lacks, now);
    SpillsThen(Spot(k, table.Now()), Fixed(KindOf(item)), data, table.lacks);
    p := buf[..k];
    var fixed := Bytes16(item.kind) + Bytes16(item.cls) + Bytes32(item.ttl);
    assert fixed == KindOf(item) by { KindIs(item); }
    ok, now := AppendFixed(buf, k, fixed, table.entries, good, now);
    if !ok {
      if k > RESPONSE_MAX { SpiltKept(buf, p); }
      return;
    }
    ok, r, now := AppendData(buf, k + 8, item.data, table, good, now, rest);
  }

  lemma KindIs(item: Item)
    ensures KindOf(item) == Bytes16(item.kind) + Bytes16(item.cls) + Bytes32(item.ttl)
  {
  }

  lemma NeverBehind(t: Table, name: seq<byte>, j: nat)
    ensures j > RESPONSE_MAX ==> !RunsOver(t.entries, name, j, RESPONSE_MAX)
  {
  }

  method AppendItems(
      buf: array<byte>, j: nat, items: seq<Item>, table: LabelTable,
      ghost good: bool, ghost done: Ledger, ghost rest: Parts)
    returns (ok: bool, r: nat, ghost now: Ledger)
    requires Room(buf.Length, Spot(j, table.Now()), ItemParts(items, rest), table.lacks)
    requires 12 <= j <= RESPONSE_MAX + 1 && j <= buf.Length && (j > RESPONSE_MAX ==> Spilt(buf))
    requires Below(table.entries, RESPONSE_MAX) && Message(buf[..j], {}, table.entries, done, good)
    requires forall item <- items :: ItemOk(item)
    requires good ==> forall name <- ItemNames(items) :: WellFormed(name)
    modifies buf, table
    ensures Below(table.entries, RESPONSE_MAX) && HeaderKept(buf)
    ensures ok ==> j <= r <= RESPONSE_MAX + 1 && r <= buf.Length && (r > RESPONSE_MAX ==> Spilt(buf))
    ensures ok ==> Message(buf[..r], {}, table.entries, now, good)
    ensures ok ==> Names(now.places) == Names(done.places) + ItemNames(items)
    ensures var laid := old(LaidOut(Spot(j, table.Now()), ItemParts(items, rest), table.lacks, done));
      laid == if ok then LaidOut(Spot(r, table.Now()), rest, table.lacks, now) else None
    ensures var spills := old(Spills(Spot(j, table.Now()), ItemParts(items, rest), table.lacks));
      if ok then spills == Spills(Spot(r, table.Now()), rest, table.lacks) else spills ==> Spilt(buf)
  {
    hide Message, Below, WellFormed, Names, ItemNames, ItemOk, Spills, ItemParts, ItemPart, Spilt, LaidOut;
    ok, r, now := true, j, done;
    ItemNamesNone();
    PartsEnds([], items, rest);
    assert items[..0] == [];
    for i := 0 to |items|
      invariant j <= r <= RESPONSE_MAX + 1 && r <= buf.Length && (r > RESPONSE_MAX ==> Spilt(buf))
      invariant Below(table.entries, RESPONSE_MAX) && HeaderKept(buf)
      invariant Message(buf[..r], {}, table.entries, now, good)
      invariant ok && Names(now.places) == Names(done.places) + ItemNames(items[..i])
      invariant old(Spills(Spot(j, table.Now()), ItemParts(items, rest), table.lacks))
        == Spills(Spot(r, table.Now()), ItemParts(items[i..], rest), table.lacks)
      invariant old(LaidOut(Spot(j, table.Now()), ItemParts(items, rest), table.lacks, done))
        == LaidOut(Spot(r, table.Now()), ItemParts(items[i..], rest), table.lacks, now)
    {
      ItemNamesNext(items, i);
      ItemPartsAt(items, i, rest);
      ghost var last := ItemParts(items[i + 1..], rest);
      ok, r, now := AppendItem(buf, r, items[i], table, good, now, last);
      if !ok { return; }
    }
    assert items[..|items|] == items;
  }

  lemma ItemNamesNone()
    ensures ItemNames([]) == []
  {
  }

  lemma {:induction false} ItemNamesIn(items: seq<Item>, i: nat, name: seq<byte>)
    requires i < |items| && name in NamesOf(items[i])
    ensures name in ItemNames(items)
  {
    if i < |items| - 1 { ItemNamesIn(items[..|items| - 1], i, name); }
  }

  lemma ItemNamesNext(items: seq<Item>, i: nat)
    requires i < |items|
    ensures ItemNames(items[..i + 1]) == ItemNames(items[..i]) + NamesOf(items[i])
    ensures items[i].name in ItemNames(items) && (items[i].data.NameData? ==> items[i].data.name in ItemNames(items))
  {
    assert items[..i + 1][..i] == items[..i];
    NamesIn(items, i);
  }

  lemma NamesIn(items: seq<Item>, i: nat)
    requires i < |items|
    ensures items[i].name in ItemNames(items) && (items[i].data.NameData? ==> items[i].data.name in ItemNames(items))
  {
    hide ItemNames;
    assert NamesOf(items[i])[0] == items[i].name;
    ItemNamesIn(items, i, items[i].name);
    if items[i].data.NameData? {
      assert NamesOf(items[i])[1] == items[i].data.name;
      ItemNamesIn(items, i, items[i].data.name);
    }
  }

  lemma {:induction false} QuestionNamesNext(qs: seq<Question>, i: nat)
    requires i < |qs|
    ensures QuestionNames(qs[..0]) == [] && QuestionNames(qs[..i + 1]) == QuestionNames(qs[..i]) + [qs[i].name]
    ensures qs[i].name in QuestionNames(qs)
    decreases |qs|
  {
    assert qs[..i + 1][..i] == qs[..i];
    if i < |qs| - 1 { QuestionNamesNext(qs[..|qs| - 1], i); }
  }

  datatype Response = Response(
    transId: nat, flags: nat, questions: seq<Question>, answers: seq<Item>, authority: seq<Item>, additional: seq<Item>)

  function AllNames(res: Response): seq<seq<byte>> {
    QuestionNames(res.questions) + ItemNames(res.answers) + ItemNames(res.authority) + ItemNames(res.additional)
  }

  predicate ResponseOk(res: Response) {
    && res.transId < 0x1_0000 && res.flags < 0x1_0000
    && |res.questions| < 0x1_0000 && |res.answers| < 0x1_0000 && |res.authority| < 0x1_0000
    && |res.additional| < 0x1_0000
    && (forall q <- res.questions :: QuestionOk(q))
    && (forall item <- res.answers + res.authority + res.additional :: ItemOk(item))
  }

  predicate AllWellFormed(res: Response) {
    forall name <- AllNames(res) :: WellFormed(name)
  }

  /** Every name of the response can be read at its place, and reading goes on behind it. */
  ghost predicate Readable(p: seq<byte>, placed: seq<Placed>) {
    forall e, cap: nat | e in placed && |e.name| < cap ::
      Parse(p, e.pos, 0, [], None, cap) == Some(Parsed(e.name, e.next))
  }

  lemma MessageReadable(p: seq<byte>, entries: seq<Entry>, done: Ledger)
    requires Message(p, {}, entries, done, true)
    ensures Readable(p, done.places)
  {
    hide Parse, Skip, Spells, Split, FieldsOk;
    var holes: set<nat>, placed := {}, done.places;
    forall e, cap: nat | e in placed && |e.name| < cap
      ensures Parse(p, e.pos, 0, [], None, cap) == Some(Parsed(e.name, e.next))
    {
      var i :| 0 <= i < |placed| && placed[i] == e;
      assert PlaceOk(p, holes, placed[i]);
      NameRoundTrip(p, holes, e.pos, e.name, cap);
    }
  }

  /** The questions, one after the other. */
  method AppendQuestions(
      buf: array<byte>, j: nat, qs: seq<Question>, table: LabelTable,
      ghost good: bool, ghost done: Ledger, ghost rest: Parts)
    returns (r: int, overflow: bool, ghost now: Ledger)
    requires Room(buf.Length, Spot(j, table.Now()), QuestionParts(qs, rest), table.lacks)
    requires 12 <= j <= RESPONSE_MAX && table.entries == [] && Message(buf[..j], {}, [], done, good)
      && done.places == []
    requires forall q <- qs :: QuestionOk(q)
    requires good ==> forall name <- QuestionNames(qs) :: WellFormed(name)
    modifies buf, table
    ensures Below(table.entries, RESPONSE_MAX) && HeaderKept(buf)
    ensures overflow ==> r >= 0
    ensures r >= 0 && !overflow ==> j <= r <= RESPONSE_MAX && Message(buf[..r], {}, table.entries, now, good)
    ensures r >= 0 && !overflow ==> Names(now.places) == QuestionNames(qs)
    ensures r < 0 <==> old(Refused(Spot(j, table.Now()), qs, table.lacks))
    ensures var laid := old(LaidOut(Spot(j, table.Now()), QuestionParts(qs, rest), table.lacks, done));
      laid == if r >= 0 && !overflow then LaidOut(Spot(r, table.Now()), rest, table.lacks, now) else None
    ensures var spills := old(Spills(Spot(j, table.Now()), QuestionParts(qs, rest), table.lacks));
      if r >= 0 && !overflow then spills == Spills(Spot(r, table.Now()), rest, table.lacks) else spills ==> Spilt(buf)
  {
    hide WellFormed, QuestionNames, QuestionOk, Message, Spills, QuestionParts, QuestionPart, Spilt, LaidOut,
      Refused, Located;
    r, overflow, now := j, false, done;
    RefusedStep(Spot(j, table.Now()), qs, 0, table.lacks);
    PartsEnds(qs, [], rest);
    if qs == [] { QuestionNamesNone(); } else { QuestionNamesNext(qs, 0); }
    for i := 0 to |qs|
      invariant j <= r <= RESPONSE_MAX && !overflow && Below(table.entries, RESPONSE_MAX) && HeaderKept(buf)
      invariant Message(buf[..r], {}, table.entries, now, good)
      invariant Names(now.places) == QuestionNames(qs[..i])
      invariant old(Spills(Spot(j, table.Now()), QuestionParts(qs, rest), table.lacks))
        == Spills(Spot(r, table.Now()), QuestionParts(qs[i..], rest), table.lacks)
      invariant old(LaidOut(Spot(j, table.Now()), QuestionParts(qs, rest), table.lacks, done))
        == LaidOut(Spot(r, table.Now()), QuestionParts(qs[i..], rest), table.lacks, now)
      invariant old(Refused(Spot(j, table.Now()), qs, table.lacks))
        == Refused(Spot(r, table.Now()), qs[i..], table.lacks)
    {
      QuestionNamesNext(qs, i);
      QuestionPartsAt(qs, i, rest);
      RefusedStep(Spot(r, table.Now()), qs, i, table.lacks);
      ghost var last := QuestionParts(qs[i + 1..], rest);
      r, overflow, now := AppendQuestion(buf, r, qs[i], table, good, now, last);
      if r < 0 || overflow { return; }
    }
    RefusedStep(Spot(r, table.Now()), qs, |qs|, table.lacks);
    assert qs[..|qs|] == qs;
  }

  lemma QuestionNamesNone()
    ensures QuestionNames([]) == []
  {
  }

  /** A message that consists of a header. */
  lemma HeaderMessage(p: seq<byte>, good: bool)
    ensures Message(p, {}, [], Ledger([], [Field(0, p)]), good)
  {
    assert FieldOk(p, {}, Field(0, p));
  }

  /** All parts of a response behind its header. */
  function ResponseParts(res: Response): Parts {
    QuestionParts(res.questions, SectionParts(res))
  }

  /** What stands in front of the parts: the id, the flags, and how many there are of each kind. */
  function Header(res: Response, err: nat): (r: seq<byte>)
    ensures |r| == 12
  {
    Bytes16(res.transId) + Bytes16(Flags(res.flags, err)) + Bytes16(|res.questions|)
      + Bytes16(|res.answers|) + Bytes16(|res.authority|) + Bytes16(|res.additional|)
  }

  /** What becomes of a response; None if it does not come to its end. */
  function Formatted(res: Response, err: nat, lacks: nat -> bool): Option<Layout> {
    LaidOut(Spot(12, Table([], 0)), ResponseParts(res), lacks, Ledger([], [Field(0, Header(res, err))]))
  }

  /** The records of a response. */
  function SectionParts(res: Response): Parts {
    ItemParts(res.answers, ItemParts(res.authority, ItemParts(res.additional, Done)))
  }

  /** Formatting the response writes one byte more than there is room for. */
  predicate ResponseSpills(res: Response, lacks: nat -> bool) {
    Spills(Spot(12, Table([], 0)), ResponseParts(res), lacks)
  }

  lemma {:induction false} QuestionPartsGood(qs: seq<Question>, rest: Parts)
    requires GoodParts(rest) && forall q <- qs :: WellFormed(q.name) && Short(q.name)
    ensures GoodParts(QuestionParts(qs, rest))
  {
    hide WellFormed;
    if qs != [] { QuestionPartsGood(qs[1..], rest); }
  }

  lemma ItemPartGood(item: Item, rest: Parts)
    requires GoodParts(rest) && WellFormed(item.name) && Short(item.name)
    requires item.data.NameData? ==> WellFormed(item.data.name) && Short(item.data.name)
    ensures GoodParts(ItemPart(item, rest))
  {
    hide WellFormed;
    assert GoodParts(Then(DataPart(item.data), rest));
  }

  lemma {:induction false} ItemPartsGood(items: seq<Item>, rest: Parts)
    requires GoodParts(rest) && forall item <- items, name <- NamesOf(item) :: WellFormed(name) && Short(name)
    ensures GoodParts(ItemParts(items, rest))
  {
    hide WellFormed;
    if items != [] {
      assert items[0].name in NamesOf(items[0]);
      assert items[0].data.NameData? ==> NamesOf(items[0])[1] == items[0].data.name;
      ItemPartsGood(items[1..], rest);
      ItemPartGood(items[0], ItemParts(items[1..], rest));
    }
  }

  /** A response with good names that has room without compression is delivered whole. */
  lemma SmallResponse(res: Response, err: nat, lacks: nat -> bool)
    requires AllWellFormed(res) && (forall name <- AllNames(res) :: Short(name))
    requires 12 + PlainSize(ResponseParts(res)) <= 512
    ensures !ResponseSpills(res, lacks)
    ensures Formatted(res, err, lacks).Some? && Formatted(res, err, lacks).value.end <= 512
  {
    hide WellFormed, Short, QuestionNames, ItemNames, NamesOf;
    forall q <- res.questions ensures WellFormed(q.name) && Short(q.name) {
      var i :| 0 <= i < |res.questions| && res.questions[i] == q;
      QuestionNamesNext(res.questions, i);
      assert q.name in AllNames(res);
    }
    forall items, i, name | items in {res.answers, res.authority, res.additional} && 0 <= i < |items|
        && name in NamesOf(items[i])
      ensures WellFormed(name) && Short(name)
    {
      ItemNamesIn(items, i, name);
      assert name in AllNames(res);
    }
    ItemPartsGood(res.additional, Done);
    ItemPartsGood(res.authority, ItemParts(res.additional, Done));
    ItemPartsGood(res.answers, ItemParts(res.authority, ItemParts(res.additional, Done)));
    QuestionPartsGood(res.questions, SectionParts(res));
    PlainNeverSpills(Spot(12, Table([], 0)), ResponseParts(res), lacks);
    PlainLaidOut(
      Spot(12, Table([], 0)), ResponseParts(res), lacks, Ledger([], [Field(0, Header(res, err))]));
  }

  /** Two records: bytes that bring the second one to 1496, and a name of three letters there. */
  function FullResponse(filler: seq<byte>): Response {
    var a, b := Item([97], 1, 1, 0, RawData(filler)), Item([97, 98, 99], 1, 1, 0, RawData([]));
    Response(0, 0, [], [a, b], [], [])
  }

  lemma FullResponseSpills(filler: seq<byte>, lacks: nat -> bool)
    requires |filler| == 1471
    ensures ResponseOk(FullResponse(filler)) && AllWellFormed(FullResponse(filler))
    ensures ResponseSpills(FullResponse(filler), lacks)
  {
    FullResponseOk(filler);
    FullResponseParts(filler);
    var start := Table([], 0);
    var u := Remembered(start, lacks, Entry([97], 12));
    FirstName(start, lacks);
    SecondName(start, lacks);
    var a, b := FullResponse(filler).answers[0], FullResponse(filler).answers[1];
    hide FullResponse, ResponseOk, AllWellFormed, SectionParts, Located, RunsOver, Remembered, Spills, Bytes16;
    var last := Then(DataPart(b.data), Done);
    var second := Then(Named([97, 98, 99], false), Then(Fixed(KindOf(b)), last));
    SpillsThen(Spot(1496, u), Named([97, 98, 99], false), Then(Fixed(KindOf(b)), last), lacks);
    SpillsThen(Spot(23, u), DataPart(a.data), second, lacks);
    SpillsThen(Spot(15, u), Fixed(KindOf(a)), Then(DataPart(a.data), second), lacks);
    SpillsThen(Spot(12, start), Named([97], false), Then(Fixed(KindOf(a)), Then(DataPart(a.data), second)), lacks);
  }

  lemma FullResponseOk(filler: seq<byte>)
    requires |filler| == 1471
    ensures ResponseOk(FullResponse(filler)) && AllWellFormed(FullResponse(filler))
  {
    var a, b := FullResponse(filler).answers[0], FullResponse(filler).answers[1];
    assert [a, b][..1] == [a] && [a][..0] == [];
    ItemNamesNone();
    assert NamesOf(a) == [[97]] && NamesOf(b) == [[97, 98, 99]];
    assert ItemNames([a]) == [[97]];
    assert ItemNames([a, b]) == [[97]] + [[97, 98, 99]];
    assert AllNames(FullResponse(filler)) == [[97], [97, 98, 99]];
    assert DotAt([97]) == 1 && Split([97]) == [[97]];
    assert DotAt([97, 98, 99]) == 3 && Split([97, 98, 99]) == [[97, 98, 99]];
  }

  lemma FullResponseParts(filler: seq<byte>)
    requires |filler| == 1471
    ensures |FullResponse(filler).answers| == 2
    ensures var a, b := FullResponse(filler).answers[0], FullResponse(filler).answers[1];
      && a.name == [97] && b.name == [97, 98, 99] && |DataPart(a.data).bytes| == 1473
      && ResponseParts(FullResponse(filler)) == ItemPart(a, ItemPart(b, Done))
  {
    var a, b := FullResponse(filler).answers[0], FullResponse(filler).answers[1];
    assert [a, b][1..] == [b] && [b][1..] == [];
    assert ItemParts([b], Done) == ItemPart(b, Done);
    assert ItemParts([a, b], Done) == ItemPart(a, ItemPart(b, Done));
  }

  lemma FirstName(t: Table, lacks: nat -> bool)
    requires t.entries == []
    ensures Located([97], 12, RESPONSE_MAX, t, lacks) == Some(Spot(15, Remembered(t, lacks, Entry([97], 12))))
  {
    assert From([97], 0) == [97] && DotAt([97]) == 1;
    PlaceStep([97], 0, 12, RESPONSE_MAX, t, lacks);
    LocatedPlace([97], 12, t, lacks);
  }

  lemma SecondName(t: Table, lacks: nat -> bool)
    requires t.entries == []
    ensures RunsOver(Remembered(t, lacks, Entry([97], 12)).entries, [97, 98, 99], 1496, RESPONSE_MAX)
  {
    assert DotAt([97, 98, 99]) == 3 && Split([97, 98, 99]) == [[97, 98, 99]];
    assert forall k | 0 <= k <= 3 && LabelStart([97, 98, 99], k) :: |From([97, 98, 99], k)| == 3;
  }

  lemma LocatedPlace(name: seq<byte>, start: nat, t: Table, lacks: nat -> bool)
    requires Short(name)
    ensures Located(name, start, RESPONSE_MAX, t, lacks) == Place(name, 0, start, RESPONSE_MAX, t, lacks)
  {
  }

  /** The flags of a response, with the bit that marks it as one and the error code. */
  function Flags(flags: nat, err: nat): (r: nat)
    ensures r < 0x1_0000
  {
    (Bits(flags) | 0x8000 | Bits(err)) as nat
  }

  function Bits(n: nat): (w: bv16)
    ensures n < 0x1_0000 ==> w == n as bv16
  {
    (n % 0x1_0000) as bv16
  }

  lemma CastBack(v: bv16, w: bv8)
    ensures (v as nat) as bv16 == v && (w as byte) as bv8 == w
  {
  }

  /** A response is marked as one and has the other bits of its flags and of the error code, and a cut one is marked as
      that and has the other bits it had. */
  lemma FlagBits(flags: nat, err: nat, b: byte)
    requires flags < 0x1_0000 && err < 0x1_0000
    ensures var f := Flags(flags, err) as bv16;
      f & 0x8000 == 0x8000 && f & 0x7FFF == (flags as bv16 | err as bv16) & 0x7FFF
    ensures var c := WithTruncated(b) as bv8; c & 2 == 2 && c & 0xFD == b as bv8 & 0xFD
  {
    hide Bits;
    CastBack(Bits(flags) | 0x8000 | Bits(err), b as bv8 | 2);
  }

  /** Formats a response.  Returns its length, or a negative number if the error code or the name of a question is bad.
      If not everything fits into 512 bytes, the response is cut there and marked as truncated. */
  method FormatResponse(buf: array<byte>, res: Response, err: int, lacks: nat -> bool)
    returns (r: int, truncated: bool, ghost placed: seq<Placed>)
    requires RESPONSE_MAX <= buf.Length && ResponseOk(res)
    requires 0 <= err <= 15 && ResponseSpills(res, lacks) ==> RESPONSE_MAX < buf.Length
    modifies buf
    ensures r <= 512
    ensures r >= 0 && !truncated <==>
      0 <= err <= 15 && Formatted(res, err, lacks).Some? && Formatted(res, err, lacks).value.end <= 512
    ensures r < 0 <==> !(0 <= err <= 15) || Refused(Spot(12, Table([], 0)), res.questions, lacks)
    ensures r >= 0 && !truncated ==> Formatted(res, err, lacks).value.end == r
    ensures r >= 0 && !truncated ==> buf[..12] == Header(res, err) && Reads(buf[..r], 12, ResponseParts(res), placed, r)
    ensures r >= 0 && !truncated && AllWellFormed(res) ==> Names(placed) == AllNames(res) && Readable(buf[..r], placed)
    ensures truncated ==> r == 512 && buf[..12] == Header(res, err)[2 := WithTruncated(Header(res, err)[2])]
    ensures 0 <= err <= 15 && ResponseSpills(res, lacks) ==> Spilt(buf) && (r < 0 || truncated)
  {
    hide Message, Names, QuestionNames, ItemNames, WellFormed, QuestionOk, ItemOk, Readable, Spills, Spilt, Reads;
    hide QuestionParts, ItemParts, AllWellFormed, Flags, WithTruncated, LaidOut, Refused, Bytes16;
    truncated, placed := false, [];
    if err < 0 || err > 15 { return -1, truncated, placed; }
    ghost var good := AllWellFormed(res);
    var table := new LabelTable(lacks);
    var header := Bytes16(res.transId) + Bytes16(Flags(res.flags, err)) + Bytes16(|res.questions|)
      + Bytes16(|res.answers|) + Bytes16(|res.authority|) + Bytes16(|res.additional|);
    var ok := AppendBytes(buf, RESPONSE_MAX, 0, header);
    assert buf[..12] == header;
    ghost var done := Ledger([], [Field(0, header)]);
    HeaderMessage(buf[..12], good);
    var overflow, j;
    QuestionNamesIn(res);
    r, overflow, done := AppendQuestions(buf, 12, res.questions, table, good, done, SectionParts(res));
    if r < 0 { return; }
    j := r;
    if !overflow {
      overflow, j, done := AppendSections(buf, j, res, table, good, done);
    }
    r := j;
    assert buf[..12] == header;
    if overflow || j > 512 {
      r, truncated := 512, true;
      SetTruncated(buf);
      assert buf[..12] == header[2 := WithTruncated(header[2])];
    } else {
      placed := done.places;
      WholeReads(buf[..r], res, err, lacks, table.entries, done, good);
    }
  }

  /** A message that has come to its end can be read. */
  lemma WholeReads(p: seq<byte>, res: Response, err: nat, lacks: nat -> bool, entries: seq<Entry>, done: Ledger,
      good: bool)
    requires Formatted(res, err, lacks) == Some(Layout(|p|, done)) && Message(p, {}, entries, done, good)
    ensures Reads(p, 12, ResponseParts(res), done.places, |p|)
    ensures good ==> Readable(p, done.places)
  {
    hide LaidOut, Reads, Readable, FieldsOk, TableOk, PlacesOk, Header;
    LaidOutReads(p, Spot(12, Table([], 0)), ResponseParts(res), lacks, Ledger([], [Field(0, Header(res, err))]));
    assert done.places[0..] == done.places;
    if good { MessageReadable(p, entries, done); }
  }

  method SetTruncated(buf: array<byte>)
    requires RESPONSE_MAX <= buf.Length
    modifies buf
    ensures buf[2] == WithTruncated(old(buf[2])) && forall i | 0 <= i < buf.Length && i != 2 :: buf[i] == old(buf[i])
    ensures Spilt(buf) == old(Spilt(buf))
  {
    buf[2] := WithTruncated(buf[2]);
  }

  function WithTruncated(b: byte): byte {
    (b as bv8 | 2) as byte
  }

  lemma QuestionNamesIn(res: Response)
    requires ResponseOk(res)
    ensures AllWellFormed(res) ==> forall name <- QuestionNames(res.questions) :: WellFormed(name)
    ensures forall q <- res.questions :: QuestionOk(q)
  {
    assert forall name <- QuestionNames(res.questions) :: name in AllNames(res);
  }

  /** The three sections of records. */
  method AppendSections(
      buf: array<byte>, j: nat, res: Response, table: LabelTable, ghost good: bool, ghost done: Ledger)
    returns (overflow: bool, r: nat, ghost now: Ledger)
    requires Room(buf.Length, Spot(j, table.Now()), SectionParts(res), table.lacks)
    requires 12 <= j <= RESPONSE_MAX && ResponseOk(res) && Below(table.entries, RESPONSE_MAX)
    requires Message(buf[..j], {}, table.entries, done, good) && Names(done.places) == QuestionNames(res.questions)
    requires good ==> AllWellFormed(res)
    modifies buf, table
    ensures HeaderKept(buf)
    ensures !overflow ==> r <= RESPONSE_MAX + 1 && r <= buf.Length && Names(now.places) == AllNames(res)
    ensures !overflow ==> Message(buf[..r], {}, table.entries, now, good)
    ensures old(Spills(Spot(j, table.Now()), SectionParts(res), table.lacks)) ==>
      Spilt(buf) && (overflow || r > RESPONSE_MAX)
    ensures old(LaidOut(Spot(j, table.Now()), SectionParts(res), table.lacks, done))
      == if overflow then None else Some(Layout(r, now))
  {
    hide Message, Names, QuestionNames, ItemNames, WellFormed, QuestionOk, ItemOk, Below, Spills, ItemParts, Spilt;
    hide LaidOut;
    var ok;
    r, now := j, done;
    assert forall item <- res.answers :: item in res.answers + res.authority + res.additional;
    assert forall item <- res.authority :: item in res.answers + res.authority + res.additional;
    assert forall item <- res.additional :: item in res.answers + res.authority + res.additional;
    assert forall name <- ItemNames(res.answers) :: name in AllNames(res);
    assert forall name <- ItemNames(res.authority) :: name in AllNames(res);
    assert forall name <- ItemNames(res.additional) :: name in AllNames(res);
    ghost var third := ItemParts(res.additional, Done);
    ghost var second := ItemParts(res.authority, third);
    ok, r, now := AppendItems(buf, r, res.answers, table, good, now, second);
    if !ok { return true, r, now; }
    ok, r, now := AppendItems(buf, r, res.authority, table, good, now, third);
    if !ok { return true, r, now; }
    ok, r, now := AppendItems(buf, r, res.additional, table, good, now, Done);
    if ok { NothingSpills(Spot(r, table.Now()), table.lacks); }
    overflow := !ok;
  }

  lemma NothingSpills(s: Spot, lacks: nat -> bool)
    ensures Spills(s, Done, lacks) <==> s.end > RESPONSE_MAX
    ensures forall done :: LaidOut(s, Done, lacks, done) == Some(Layout(s.end, done))
  {
  }
}
