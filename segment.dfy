/**
 * Splitting a corpus into tablets and writing them out in batches
 * (segment.py). A tablet is the run of lines up to and including the next
 * blank line; a last tablet without one gets a synthesized blank line.
 */
module Segment {
  import opened Strings
  import opened Streams

  /** The position of the first blank line of `rest`, or `|rest|` when there is none. */
  function FirstBlank(rest: seq<string>): (k: nat)
    ensures k <= |rest|
    ensures k < |rest| ==> rest[k] == "\n"
    ensures forall i :: 0 <= i < k ==> rest[i] != "\n"
  {
    if |rest| == 0 || rest[0] == "\n" then 0
    else
      var k := 1 + FirstBlank(rest[1..]);
      assert forall i :: 1 <= i < k ==> rest[i] == rest[1..][i - 1];
      k
  }

  /**
   * `get_next_tablet` on the unread lines `rest`: the tablet (None at end of
   * input) and how many lines it reads.
   */
  function NextTablet(rest: seq<string>): (r: (Option<seq<string>>, nat))
    ensures r.0.None? <==> rest == []
    ensures r.1 <= |rest| && (r.0.Some? ==> r.1 > 0)
  {
    if rest == [] then (None, 0)
    else
      var k := FirstBlank(rest);
      if k < |rest| then (Some(rest[..k + 1]), k + 1)
      else (Some(rest + ["\n"]), |rest|)
  }

  /**
   * A tablet is the input up to and including its first blank line; when the
   * input ends first, the tablet is all of it followed by a synthesized blank line.
   */
  lemma NextTabletCut(rest: seq<string>)
    requires rest != []
    ensures var (t, used) := NextTablet(rest);
      t.Some? && |t.value| > 0 && t.value[|t.value| - 1] == "\n"
      && (used < |rest| ==> t.value == rest[..used] && Unterminated(rest[used..]) == Unterminated(rest))
      && (used == |rest| ==> t.value == rest + (if Unterminated(rest) then ["\n"] else []))
  {
    var k := FirstBlank(rest);
    if k == |rest| {
      assert rest[|rest| - 1] != "\n";
    } else if k + 1 == |rest| {
      assert rest[..k + 1] == rest;
    }
  }

  /** All tablets of `rest`, in order, as repeated calls of `get_next_tablet` return them. */
  function Tablets(rest: seq<string>): seq<seq<string>>
    decreases |rest|
  {
    var (t, used) := NextTablet(rest);
    if t.None? then [] else [t.value] + Tablets(rest[used..])
  }

  function Flatten(ts: seq<seq<string>>): seq<string> {
    if |ts| == 0 then [] else ts[0] + Flatten(ts[1..])
  }

  lemma {:induction false} FlattenAppend(a: seq<seq<string>>, b: seq<seq<string>>)
    ensures Flatten(a + b) == Flatten(a) + Flatten(b)
    decreases |a|
  {
    if |a| > 0 {
      assert (a + b)[1..] == a[1..] + b;
      FlattenAppend(a[1..], b);
    } else {
      assert a + b == b;
    }
  }

  /** The input does not end in a blank line, so a blank line is synthesized after it. */
  predicate Unterminated(rest: seq<string>) {
    rest != [] && rest[|rest| - 1] != "\n"
  }

  /**
   * Segmentation loses nothing and invents only one line: the tablets, put
   * back together, are the input plus a blank line when it did not end in one.
   */
  lemma {:induction false} TabletsComplete(rest: seq<string>)
    ensures Flatten(Tablets(rest)) == rest + (if Unterminated(rest) then ["\n"] else [])
    decreases |rest|
  {
    if rest != [] {
      var (t, used) := NextTablet(rest);
      NextTabletCut(rest);
      TabletsComplete(rest[used..]);
      assert Tablets(rest) == [t.value] + Tablets(rest[used..]);
      assert Flatten(Tablets(rest)) == t.value + Flatten(Tablets(rest[used..]));
      if used < |rest| {
        assert rest == rest[..used] + rest[used..];
      } else {
        assert rest[used..] == [];
      }
    }
  }

  /** Every tablet ends in a blank line. */
  lemma {:induction false} TabletsEndBlank(rest: seq<string>)
    ensures forall j :: 0 <= j < |Tablets(rest)| ==>
      |Tablets(rest)[j]| > 0 && Tablets(rest)[j][|Tablets(rest)[j]| - 1] == "\n"
    decreases |rest|
  {
    if rest != [] {
      var (t, used) := NextTablet(rest);
      NextTabletCut(rest);
      TabletsEndBlank(rest[used..]);
      var ts := Tablets(rest);
      assert ts == [t.value] + Tablets(rest[used..]);
      forall j | 0 <= j < |ts| ensures |ts[j]| > 0 && ts[j][|ts[j]| - 1] == "\n" {
        if j > 0 { assert ts[j] == Tablets(rest[used..])[j - 1]; }
      }
    }
  }

  /** `get_next_tablet(fin)`: reads up to and including the next blank line. */
  method GetNextTablet(fin: Reader) returns (tablet: Option<seq<string>>)
    requires fin.Valid()
    modifies fin`pos
    ensures fin.Valid() && old(fin.pos) <= fin.pos
    ensures (tablet, fin.pos - old(fin.pos)) == NextTablet(old(fin.Rest()))
  {
    ghost var rest := fin.Rest();
    ghost var start := fin.pos;
    tablet := None;
    while true
      invariant fin.Valid() && start <= fin.pos && fin.lines == old(fin.lines)
      invariant rest == fin.lines[start..]
      invariant tablet == if fin.pos == start then None else Some(rest[..fin.pos - start])
      invariant forall i :: 0 <= i < fin.pos - start ==> rest[i] != "\n"
      decreases |fin.lines| - fin.pos
    {
      var line := fin.ReadLine();
      if line == "" {
        break;
      }
      if tablet.None? || tablet.value == [] {
        tablet := Some([]);
      }
      if line == "\n" {
        tablet := Some(tablet.value + ["\n"]);
        assert FirstBlank(rest) == fin.pos - 1 - start;
        assert tablet.value == rest[..fin.pos - start];
        return;
      }
      tablet := Some(tablet.value + [line]);
      assert rest[..fin.pos - start] == rest[..fin.pos - 1 - start] + [line];
    }
    assert fin.pos == |fin.lines|;
    if tablet.Some? && |tablet.value| > 0 {
      assert FirstBlank(rest) == |rest|;
      assert rest[..fin.pos - start] == rest;
      tablet := Some(tablet.value + ["\n"]);
    }
  }

  /** `write_human_file`: the text of each tab-separated line, a space after each, a newline per `</l>`. */
  function HumanPieces(tablet: seq<string>): (r: seq<string>)
    ensures forall i :: 0 <= i < |r| ==> '\t' !in r[i]
  {
    if |tablet| == 0 then []
    else
      var line := tablet[0];
      var here := if '\t' in line then [Split(line, '\t')[0], " "]
                  else if Contains(line, "</l>") then ["\n"]
                  else [];
      here + HumanPieces(tablet[1..])
  }

  /** The human-readable text is built line by line. */
  lemma {:induction false} HumanPiecesAppend(a: seq<string>, b: seq<string>)
    ensures HumanPieces(a + b) == HumanPieces(a) + HumanPieces(b)
    decreases |a|
  {
    if |a| == 0 {
      assert a + b == b;
    } else {
      assert (a + b)[1..] == a[1..] + b;
      HumanPiecesAppend(a[1..], b);
    }
  }

  /** `write_machine_file`: a blank line, then the tablet as it was read. */
  function MachineLines(tablet: seq<string>): seq<string> {
    ["\n"] + tablet
  }

  /** `--count`: 10 by default; a value given on the command line stays a string. */
  datatype CountArg = IntCount(n: int) | TextCount(text: string)

  /** `len(tablets) == args.count`: a string never equals a length. */
  predicate BatchFull(count: CountArg, size: nat) {
    count.IntCount? && size == count.n
  }

  /** The batches `segment` writes: full ones as they fill up, then whatever is left (possibly nothing). */
  function Batches(ts: seq<seq<string>>, count: CountArg, pending: seq<seq<string>>): (r: seq<seq<seq<string>>>)
    ensures |r| > 0
    decreases |ts|
  {
    if ts == [] then [pending]
    else
      var p := pending + [ts[0]];
      if BatchFull(count, |p|) then [p] + Batches(ts[1..], count, [])
      else Batches(ts[1..], count, p)
  }

  function FlattenBatches(bs: seq<seq<seq<string>>>): seq<seq<string>> {
    if |bs| == 0 then [] else bs[0] + FlattenBatches(bs[1..])
  }

  /**
   * Batching keeps every tablet once and in order; with a positive integer count
   * every batch but the last holds exactly `count` tablets and the last fewer.
   */
  lemma {:induction false} BatchesPartition(ts: seq<seq<string>>, count: CountArg, pending: seq<seq<string>>)
    requires count.IntCount? && count.n > 0 ==> |pending| < count.n
    ensures FlattenBatches(Batches(ts, count, pending)) == pending + ts
    ensures count.IntCount? && count.n > 0 ==>
      var bs := Batches(ts, count, pending);
      (forall j :: 0 <= j < |bs| - 1 ==> |bs[j]| == count.n) && |bs[|bs| - 1]| < count.n
    decreases |ts|
  {
    var bs := Batches(ts, count, pending);
    if ts == [] {
      assert FlattenBatches(bs) == pending + FlattenBatches([]);
    } else {
      var p := pending + [ts[0]];
      assert p + ts[1..] == pending + ts;
      if BatchFull(count, |p|) {
        BatchesPartition(ts[1..], count, []);
        var rest := Batches(ts[1..], count, []);
        assert bs == [p] + rest && bs[1..] == rest;
        assert FlattenBatches(bs) == p + FlattenBatches(rest);
        assert [] + ts[1..] == ts[1..];
        if count.IntCount? && count.n > 0 {
          forall j | 0 <= j < |bs| - 1 ensures |bs[j]| == count.n {
            if j > 0 { assert bs[j] == rest[j - 1]; }
          }
        }
      } else {
        BatchesPartition(ts[1..], count, p);
      }
    }
  }

  /** A count given on the command line never matches, so all tablets are written in one batch at the end. */
  lemma {:induction false} TextCountOneBatch(ts: seq<seq<string>>, text: string, pending: seq<seq<string>>)
    ensures Batches(ts, TextCount(text), pending) == [pending + ts]
    decreases |ts|
  {
    if ts != [] {
      TextCountOneBatch(ts[1..], text, pending + [ts[0]]);
      assert pending + [ts[0]] + ts[1..] == pending + ts;
    } else {
      assert pending + ts == pending;
    }
  }

  /** The output directory: human-readable and machine-readable files, by their index in the batch. */
  class Directory {
    var human: map<nat, seq<string>>
    var machine: map<nat, seq<string>>

    constructor()
      ensures human == map[] && machine == map[]
    {
      human := map[];
      machine := map[];
    }

    /** `write_tablet_files`: tablet `i` of the batch (re)writes files number `i`. */
    method WriteTabletFiles(tablets: seq<seq<string>>)
      modifies this
      ensures human == StoreHuman(old(human), tablets, |tablets|)
      ensures machine == StoreMachine(old(machine), tablets, |tablets|)
    {
      for i := 0 to |tablets|
        invariant human == StoreHuman(old(human), tablets, i)
        invariant machine == StoreMachine(old(machine), tablets, i)
      {
        var h := WriteHumanFile(tablets[i]);
        human := human[i := h];
        machine := machine[i := ["\n"] + tablets[i]];
      }
    }

    /** The lines of one human-readable file, written piece by piece. */
    static method WriteHumanFile(tablet: seq<string>) returns (pieces: seq<string>)
      ensures pieces == HumanPieces(tablet)
    {
      pieces := [];
      for i := 0 to |tablet|
        invariant pieces == HumanPieces(tablet[..i])
      {
        var line := tablet[i];
        assert tablet[..i + 1] == tablet[..i] + [line];
        HumanPiecesAppend(tablet[..i], [line]);
        if '\t' in line {
          pieces := pieces + [Split(line, '\t')[0]];
          pieces := pieces + [" "];
        } else if Contains(line, "</l>") {
          pieces := pieces + ["\n"];
        }
      }
      assert tablet[..|tablet|] == tablet;
    }
  }

  /** The human-readable files after the first `n` tablets of a batch are written. */
  function StoreHuman(files: map<nat, seq<string>>, tablets: seq<seq<string>>, n: nat): map<nat, seq<string>>
    requires n <= |tablets|
  {
    if n == 0 then files else StoreHuman(files, tablets, n - 1)[n - 1 := HumanPieces(tablets[n - 1])]
  }

  function StoreMachine(files: map<nat, seq<string>>, tablets: seq<seq<string>>, n: nat): map<nat, seq<string>>
    requires n <= |tablets|
  {
    if n == 0 then files else StoreMachine(files, tablets, n - 1)[n - 1 := MachineLines(tablets[n - 1])]
  }

  /**
   * Writing a batch names files by position within the batch: file `i` now holds
   * tablet `i` of this batch, and files past the end of the batch keep what an
   * earlier batch wrote there.
   */
  lemma {:induction false} StoreHumanOverwrites(files: map<nat, seq<string>>, tablets: seq<seq<string>>, n: nat)
    requires n <= |tablets|
    ensures forall i :: 0 <= i < n ==> i in StoreHuman(files, tablets, n) && StoreHuman(files, tablets, n)[i] == HumanPieces(tablets[i])
    ensures forall i: nat :: i >= n && i in files ==> i in StoreHuman(files, tablets, n) && StoreHuman(files, tablets, n)[i] == files[i]
    decreases n
  {
    if n > 0 {
      StoreHumanOverwrites(files, tablets, n - 1);
    }
  }

  lemma {:induction false} StoreMachineOverwrites(files: map<nat, seq<string>>, tablets: seq<seq<string>>, n: nat)
    requires n <= |tablets|
    ensures forall i :: 0 <= i < n ==> i in StoreMachine(files, tablets, n) && StoreMachine(files, tablets, n)[i] == MachineLines(tablets[i])
    ensures forall i: nat :: i >= n && i in files ==> i in StoreMachine(files, tablets, n) && StoreMachine(files, tablets, n)[i] == files[i]
    decreases n
  {
    if n > 0 {
      StoreMachineOverwrites(files, tablets, n - 1);
    }
  }

  /** The files after writing each batch in turn. */
  function HumanAfter(files: map<nat, seq<string>>, bs: seq<seq<seq<string>>>): map<nat, seq<string>>
    decreases |bs|
  {
    if |bs| == 0 then files
    else StoreHuman(HumanAfter(files, bs[..|bs| - 1]), bs[|bs| - 1], |bs[|bs| - 1]|)
  }

  function MachineAfter(files: map<nat, seq<string>>, bs: seq<seq<seq<string>>>): map<nat, seq<string>>
    decreases |bs|
  {
    if |bs| == 0 then files
    else StoreMachine(MachineAfter(files, bs[..|bs| - 1]), bs[|bs| - 1], |bs[|bs| - 1]|)
  }

  /** Before the first blank line, a line is blank exactly at it. */
  lemma FirstBlankAt(rest: seq<string>, j: nat)
    requires j <= FirstBlank(rest) && j < |rest|
    ensures rest[j] == "\n" <==> j == FirstBlank(rest)
  {
  }

  /** The header of the corpus: every line up to and including the first blank line. */
  method SkipHeader(fin: Reader)
    requires fin.Valid() && "\n" in fin.Rest()
    modifies fin`pos
    ensures fin.Valid() && fin.pos == old(fin.pos) + FirstBlank(old(fin.Rest())) + 1
  {
    ghost var rest := fin.Rest();
    ghost var start := fin.pos;
    ghost var k := FirstBlank(rest);
    assert k < |rest| by {
      var j :| 0 <= j < |rest| && rest[j] == "\n";
    }
    var loop := true;
    while loop
      invariant fin.Valid() && fin.lines == old(fin.lines) && rest == fin.lines[start..]
      invariant start <= fin.pos <= start + k + 1
      invariant loop == (fin.pos <= start + k)
      decreases start + k + 1 - fin.pos
    {
      var line := fin.ReadLine();
      FirstBlankAt(rest, fin.pos - 1 - start);
      if "\n" == line {
        loop := false;
      }
    }
  }

  /** One more tablet: it joins the pending batch, which is written out once full. */
  lemma BatchesStep(t: seq<string>, r: seq<seq<string>>, count: CountArg, pending: seq<seq<string>>)
    ensures Batches([t] + r, count, pending) ==
      if BatchFull(count, |pending| + 1) then [pending + [t]] + Batches(r, count, [])
      else Batches(r, count, pending + [t])
  {
    assert ([t] + r)[0] == t && ([t] + r)[1..] == r;
  }

  /** The batching loop's invariant survives one more tablet. */
  lemma BatchesAdvance(done: seq<seq<seq<string>>>, pending: seq<seq<string>>, t: seq<string>,
                       later: seq<seq<string>>, count: CountArg, goal: seq<seq<seq<string>>>)
    requires done + Batches([t] + later, count, pending) == goal
    ensures BatchFull(count, |pending| + 1) ==> done + [pending + [t]] + Batches(later, count, []) == goal
    ensures !BatchFull(count, |pending| + 1) ==> done + Batches(later, count, pending + [t]) == goal
  {
    BatchesStep(t, later, count, pending);
    if BatchFull(count, |pending| + 1) {
      assert done + [pending + [t]] + Batches(later, count, []) == done + ([pending + [t]] + Batches(later, count, []));
    }
  }

  /** The tablets still to come: the one just read and those after it. */
  function Upcoming(tablet: Option<seq<string>>, rest: seq<string>): seq<seq<string>> {
    if tablet.Some? then [tablet.value] + Tablets(rest) else []
  }

  lemma UpcomingIsTablets(rest: seq<string>)
    ensures Upcoming(NextTablet(rest).0, rest[NextTablet(rest).1..]) == Tablets(rest)
  {
  }

  /** `GetNextTablet` on what is left of the input. */
  method ReadTablet(fin: Reader) returns (tablet: Option<seq<string>>)
    requires fin.Valid()
    modifies fin`pos
    ensures fin.Valid() && fin.lines == old(fin.lines)
    ensures Upcoming(tablet, fin.Rest()) == Tablets(old(fin.Rest()))
    ensures old(fin.pos) <= fin.pos && (tablet.Some? ==> fin.pos > old(fin.pos))
  {
    ghost var rest := fin.Rest();
    tablet := GetNextTablet(fin);
    assert fin.Rest() == rest[fin.pos - old(fin.pos)..];
    UpcomingIsTablets(rest);
  }

  lemma HumanAfterAppend(files: map<nat, seq<string>>, bs: seq<seq<seq<string>>>, b: seq<seq<string>>)
    ensures HumanAfter(files, bs + [b]) == StoreHuman(HumanAfter(files, bs), b, |b|)
    ensures MachineAfter(files, bs + [b]) == StoreMachine(MachineAfter(files, bs), b, |b|)
  {
    assert (bs + [b])[..|bs|] == bs;
  }

  /**
   * The batching loop of `segment`: collect tablets, write every full batch,
   * and write whatever is left at the end of the input.
   */
  method WriteBatches(fin: Reader, count: CountArg, dir: Directory)
    requires fin.Valid()
    modifies fin`pos, dir
    ensures dir.human == HumanAfter(old(dir.human), Batches(Tablets(old(fin.Rest())), count, []))
    ensures dir.machine == MachineAfter(old(dir.machine), Batches(Tablets(old(fin.Rest())), count, []))
  {
    ghost var h0, m0 := dir.human, dir.machine;
    ghost var done: seq<seq<seq<string>>> := [];
    var tablets: seq<seq<string>> := [];
    var tablet := ReadTablet(fin);
    ghost var goal := Batches(Tablets(old(fin.Rest())), count, []);
    assert [] + Batches(Upcoming(tablet, fin.Rest()), count, tablets) == goal;
    while tablet.Some?
      invariant fin.Valid() && fin.lines == old(fin.lines)
      invariant done + Batches(Upcoming(tablet, fin.Rest()), count, tablets) == goal
      invariant dir.human == HumanAfter(h0, done) && dir.machine == MachineAfter(m0, done)
      decreases |fin.lines| - fin.pos, tablet.Some?
    {
      ghost var later := Tablets(fin.Rest());
      BatchesAdvance(done, tablets, tablet.value, later, count, goal);
      tablets := tablets + [tablet.value];
      if BatchFull(count, |tablets|) {
        WriteBatch(dir, h0, m0, done, tablets);
        done := done + [tablets];
        tablets := [];
      }
      tablet := ReadTablet(fin);
      assert Upcoming(tablet, fin.Rest()) == later;
    }
    assert goal == done + [tablets];
    WriteBatch(dir, h0, m0, done, tablets);
  }

  /** One batch more written. */
  method WriteBatch(dir: Directory, ghost h0: map<nat, seq<string>>, ghost m0: map<nat, seq<string>>,
                    ghost done: seq<seq<seq<string>>>, tablets: seq<seq<string>>)
    requires dir.human == HumanAfter(h0, done) && dir.machine == MachineAfter(m0, done)
    modifies dir
    ensures dir.human == HumanAfter(h0, done + [tablets]) && dir.machine == MachineAfter(m0, done + [tablets])
  {
    HumanAfterAppend(h0, done, tablets);
    HumanAfterAppend(m0, done, tablets);
    dir.WriteTabletFiles(tablets);
  }

  /**
   * `segment`: skip the header, then write the tablets in batches of `count`.
   * The input must hold a blank line, or the header loop never ends.
   */
  method Run(fin: Reader, count: CountArg, dir: Directory)
    requires fin.Valid() && "\n" in fin.Rest()
    modifies fin`pos, dir
    ensures dir.human == HumanAfter(old(dir.human),
      Batches(Tablets(old(fin.Rest())[FirstBlank(old(fin.Rest())) + 1..]), count, []))
    ensures dir.machine == MachineAfter(old(dir.machine),
      Batches(Tablets(old(fin.Rest())[FirstBlank(old(fin.Rest())) + 1..]), count, []))
  {
    ghost var all := fin.Rest();
    SkipHeader(fin);
    assert fin.Rest() == all[FirstBlank(all) + 1..];
    WriteBatches(fin, count, dir);
  }
}
