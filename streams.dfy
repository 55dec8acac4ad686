/**
 * The files the corpus tools read and write. A `Reader` is an open input file
 * read with `readline()`; a `Writer` is an output file (or standard output)
 * whose `write` calls are recorded one string per call.
 */
module Streams {

  /** An input file: its lines, each with its end-of-line, and the read position. */
  class Reader {
    var lines: seq<string>
    var pos: nat

    /** A line of a file is never empty: it holds at least its end-of-line. */
    predicate Valid()
      reads this
    {
      pos <= |lines| && forall i :: 0 <= i < |lines| ==> lines[i] != ""
    }

    constructor(content: seq<string>)
      requires forall i :: 0 <= i < |content| ==> content[i] != ""
      ensures lines == content && pos == 0 && Valid()
    {
      lines := content;
      pos := 0;
    }

    /** The lines not yet read. */
    function Rest(): seq<string>
      reads this
      requires pos <= |lines|
    {
      lines[pos..]
    }

    /** `readline()`: the next line, or "" once the file is exhausted. */
    method ReadLine() returns (line: string)
      requires Valid()
      modifies this`pos
      ensures Valid()
      ensures old(pos) < |lines| ==> line == lines[old(pos)] && pos == old(pos) + 1
      ensures old(pos) == |lines| ==> line == "" && pos == old(pos)
      ensures line == "" <==> old(pos) == |lines|
    {
      if pos < |lines| {
        line := lines[pos];
        pos := pos + 1;
      } else {
        line := "";
      }
    }
  }

  /** An output file: everything written to it so far, one entry per `write`. */
  class Writer {
    var written: seq<string>

    constructor()
      ensures written == []
    {
      written := [];
    }

    method Write(s: string)
      modifies this
      ensures written == old(written) + [s]
    {
      written := written + [s];
    }

    /** One `write` per string of `ss`, in order. */
    method WriteAll(ss: seq<string>)
      modifies this
      ensures written == old(written) + ss
    {
      for i := 0 to |ss|
        invariant written == old(written) + ss[..i]
      {
        Write(ss[i]);
        assert ss[..i + 1] == ss[..i] + [ss[i]];
      }
    }
  }

  // Sequence bookkeeping for consecutive writes; no behaviour of the scripts is modelled here.

  /** Writes appended after earlier ones: `(b + r) + a == b + (r + a)`. */
  lemma Regroup(b: seq<string>, r: seq<string>, a: seq<string>)
    ensures b + r + a == b + (r + a)
  {
  }

  /** Four writes one after the other put down the four parts in order. */
  lemma Appended4(start: seq<string>, w: seq<string>, x: seq<string>, y: seq<string>, z: seq<string>,
                  afterW: seq<string>, afterX: seq<string>, afterY: seq<string>, afterZ: seq<string>)
    requires afterW == start + w && afterX == afterW + x && afterY == afterX + y && afterZ == afterY + z
    ensures afterZ == start + (w + x + y + z)
  {
  }

  /** The text a sequence of writes produces. */
  function Concat(ss: seq<string>): string {
    if |ss| == 0 then "" else ss[0] + Concat(ss[1..])
  }

  lemma {:induction false} ConcatAppend(a: seq<string>, b: seq<string>)
    ensures Concat(a + b) == Concat(a) + Concat(b)
    decreases |a|
  {
    if |a| > 0 {
      assert (a + b)[1..] == a[1..] + b;
      ConcatAppend(a[1..], b);
    } else {
      assert a + b == b;
    }
  }

  /**
   * `pairwise(xs)`: each element with its successor, in order. The last element
   * never appears as a first component.
   */
  function Pairwise<T>(xs: seq<T>): (r: seq<(T, T)>)
    ensures |r| == if |xs| == 0 then 0 else |xs| - 1
    ensures forall i :: 0 <= i < |r| ==> r[i].0 == xs[i] && r[i].1 == xs[i + 1]
  {
    if |xs| < 2 then [] else [(xs[0], xs[1])] + Pairwise(xs[1..])
  }
}
