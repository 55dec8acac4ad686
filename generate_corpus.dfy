/**
 * `generate_corpus.py`: split an ATF corpus into tablets (each begins with an
 * `&` line), keep the tablets written in the requested language, and write
 * the lemmatised ones (those holding a `#lem:` line) to one output and the
 * others, without their empty lines, to a second output. Lines are read in
 * pairs, so a tablet is written when the line after its last line begins the
 * next tablet.
 */
module GenerateCorpus {
  import opened Strings
  import opened Streams

  /** The loop's variables: the `lemma` and `valid` flags and the `lines` buffer of the current tablet. */
  datatype Scan = Scan(hasLemma: bool, valid: bool, lines: seq<string>)

  const Fresh: Scan := Scan(false, false, [])

  /** `line1.startswith('#atf') and 'lang' in line1`. */
  predicate IsLangLine(line: string) {
    StartsWith(line, "#atf") && Contains(line, "lang")
  }

  /** A language line naming `lang` at its end. */
  predicate Declares(line: string, lang: string) {
    IsLangLine(line) && EndsWith(line, lang)
  }

  predicate IsLem(line: string) {
    StartsWith(line, "#lem:")
  }

  /** The first half of the loop body: `line1` (stripped) updates the flags and the buffer. */
  function Buffer(st: Scan, line1: string, lang: string, removeLemmata: bool): Scan {
    if StartsWith(line1, "&") then Scan(false, false, [line1])
    else if IsLangLine(line1) then Scan(st.hasLemma, st.valid || EndsWith(line1, lang), st.lines + [line1])
    else if IsLem(line1) then Scan(true, st.valid, if removeLemmata then st.lines else st.lines + [line1])
    else Scan(st.hasLemma, st.valid, st.lines + [line1])
  }

  /** The writes `for line in lines: ... write(line + '\n')`, dropping empty lines unless `keepEmpty`. */
  function Written(lines: seq<string>, keepEmpty: bool): seq<string> {
    if lines == [] then []
    else
      Written(lines[..|lines| - 1], keepEmpty) +
      (if keepEmpty || lines[|lines| - 1] != "" then [lines[|lines| - 1] + "\n"] else [])
  }

  /** What a flush writes to the lemmatised and the unlemmatised output. */
  function Emitted(st: Scan): (seq<string>, seq<string>) {
    if !st.valid then ([], [])
    else if st.hasLemma then (Written(st.lines, true), [])
    else ([], Written(st.lines, false))
  }

  /** One pass of the loop on the pair `(line1, line2)`: the new variables and what it writes. */
  function Step(st: Scan, pair: (string, string), lang: string, removeLemmata: bool): (Scan, (seq<string>, seq<string>)) {
    var b := Buffer(st, Strip(pair.0), lang, removeLemmata);
    if StartsWith(Strip(pair.1), "&") then (Fresh, Emitted(b)) else (b, ([], []))
  }

  /** The loop's variables and both outputs so far. */
  datatype Progress = Progress(st: Scan, lemmatized: seq<string>, unlemmatized: seq<string>)

  /** The loop over `pairs`, from empty outputs and a fresh buffer. */
  function Run(pairs: seq<(string, string)>, lang: string, removeLemmata: bool): Progress {
    if pairs == [] then Progress(Fresh, [], [])
    else Pass(Run(pairs[..|pairs| - 1], lang, removeLemmata), pairs[|pairs| - 1], lang, removeLemmata)
  }

  /** One pass of the loop: `Step`, with its writes appended to the outputs. */
  function Pass(p: Progress, pair: (string, string), lang: string, removeLemmata: bool): Progress {
    var (st, out) := Step(p.st, pair, lang, removeLemmata);
    Progress(st, p.lemmatized + out.0, p.unlemmatized + out.1)
  }

  /** What `parse` writes to both outputs for the input lines. */
  function Generated(input: seq<string>, lang: string, removeLemmata: bool): (seq<string>, seq<string>) {
    var p := Run(Pairwise(input), lang, removeLemmata);
    (p.lemmatized, p.unlemmatized)
  }

  /** Write the buffered lines of a valid tablet. */
  method Flush(lines: seq<string>, hasLemma: bool, flemma: Writer, fnolemma: Writer)
    requires flemma != fnolemma
    modifies flemma, fnolemma
    ensures flemma.written == old(flemma.written) + (if hasLemma then Written(lines, true) else [])
    ensures fnolemma.written == old(fnolemma.written) + (if hasLemma then [] else Written(lines, false))
  {
    for k := 0 to |lines|
      invariant flemma.written == old(flemma.written) + (if hasLemma then Written(lines[..k], true) else [])
      invariant fnolemma.written == old(fnolemma.written) + (if hasLemma then [] else Written(lines[..k], false))
    {
      assert lines[..k + 1][..k] == lines[..k];
      if hasLemma {
        flemma.Write(lines[k] + "\n");
      } else {
        if lines[k] != "" {
          fnolemma.Write(lines[k] + "\n");
        }
      }
    }
    assert lines[..|lines|] == lines;
  }

  /** The first half of the loop body on the stripped `line1`. */
  method Take(hasLemma: bool, valid: bool, lines: seq<string>, line1: string, lang: string, removeLemmata: bool)
    returns (hasLemma': bool, valid': bool, lines': seq<string>)
    ensures Scan(hasLemma', valid', lines') == Buffer(Scan(hasLemma, valid, lines), line1, lang, removeLemmata)
  {
    hasLemma', valid', lines' := hasLemma, valid, lines;
    if StartsWith(line1, "&") {
      hasLemma', valid', lines' := false, false, [line1];
    } else if StartsWith(line1, "#atf") && Contains(line1, "lang") {
      lines' := lines' + [line1];
      if EndsWith(line1, lang) {
        valid' := true;
      }
    } else {
      if StartsWith(line1, "#lem:") {
        hasLemma' := true;
        if !removeLemmata {
          lines' := lines' + [line1];
        }
      } else {
        lines' := lines' + [line1];
      }
    }
  }

  lemma RunStep(pairs: seq<(string, string)>, i: nat, lang: string, removeLemmata: bool)
    requires i < |pairs|
    ensures Run(pairs[..i + 1], lang, removeLemmata) ==
      var p := Run(pairs[..i], lang, removeLemmata);
      var (st, out) := Step(p.st, pairs[i], lang, removeLemmata);
      Progress(st, p.lemmatized + out.0, p.unlemmatized + out.1)
  {
    assert pairs[..i + 1][..i] == pairs[..i];
  }

  /** One pass of the loop body on the pair `(line1, line2)`. */
  method Handle(hasLemma: bool, valid: bool, lines: seq<string>, pair: (string, string), lang: string, removeLemmata: bool,
                flemma: Writer, fnolemma: Writer)
    returns (hasLemma': bool, valid': bool, lines': seq<string>)
    requires flemma != fnolemma
    modifies flemma, fnolemma
    ensures Scan(hasLemma', valid', lines') == Step(Scan(hasLemma, valid, lines), pair, lang, removeLemmata).0
    ensures flemma.written == old(flemma.written) + Step(Scan(hasLemma, valid, lines), pair, lang, removeLemmata).1.0
    ensures fnolemma.written == old(fnolemma.written) + Step(Scan(hasLemma, valid, lines), pair, lang, removeLemmata).1.1
  {
    var line1 := Strip(pair.0);
    var line2 := Strip(pair.1);
    hasLemma', valid', lines' := Take(hasLemma, valid, lines, line1, lang, removeLemmata);
    if StartsWith(line2, "&") {
      if valid' {
        Flush(lines', hasLemma', flemma, fnolemma);
      }
      hasLemma', valid', lines' := false, false, [];
    }
  }

  /**
   * `parse`, with the buffer starting empty: each pair of input lines updates
   * the flags and the buffer, and a valid tablet is written when the next line
   * begins a new one.
   */
  method Parse(input: seq<string>, lang: string, removeLemmata: bool, flemma: Writer, fnolemma: Writer)
    requires flemma != fnolemma
    modifies flemma, fnolemma
    ensures flemma.written == old(flemma.written) + Generated(input, lang, removeLemmata).0
    ensures fnolemma.written == old(fnolemma.written) + Generated(input, lang, removeLemmata).1
  {
    var hasLemma, valid := false, false;
    var lines: seq<string> := [];
    var pairs := Pairwise(input);
    for i := 0 to |pairs|
      invariant Scan(hasLemma, valid, lines) == Run(pairs[..i], lang, removeLemmata).st
      invariant flemma.written == old(flemma.written) + Run(pairs[..i], lang, removeLemmata).lemmatized
      invariant fnolemma.written == old(fnolemma.written) + Run(pairs[..i], lang, removeLemmata).unlemmatized
    {
      RunStep(pairs, i, lang, removeLemmata);
      ghost var p := Run(pairs[..i], lang, removeLemmata);
      ghost var out := Step(p.st, pairs[i], lang, removeLemmata).1;
      hasLemma, valid, lines := Handle(hasLemma, valid, lines, pairs[i], lang, removeLemmata, flemma, fnolemma);
      Regroup(old(flemma.written), p.lemmatized, out.0);
      Regroup(old(fnolemma.written), p.unlemmatized, out.1);
    }
    assert pairs[..|pairs|] == pairs;
  }

  /* ---------------- The output tablet by tablet ---------------- */

  /** Every input line stripped, as the loop sees it. */
  function StripAll(input: seq<string>): (t: seq<string>)
    ensures |t| == |input|
    ensures forall i :: 0 <= i < |input| ==> t[i] == Strip(input[i])
  {
    seq(|input|, i requires 0 <= i < |input| => Strip(input[i]))
  }

  /**
   * The input cut before every `&` line: a leading piece (empty when the input
   * begins with `&`) and one tablet per `&` line.
   */
  function Chunks(t: seq<string>): (cs: seq<seq<string>>)
    ensures |cs| > 0
  {
    if t == [] then [[]]
    else
      var cs := Chunks(t[..|t| - 1]);
      var x := t[|t| - 1];
      if StartsWith(x, "&") then cs + [[x]] else cs[..|cs| - 1] + [cs[|cs| - 1] + [x]]
  }

  function Last<T>(cs: seq<seq<T>>): seq<T>
    requires |cs| > 0
  {
    cs[|cs| - 1]
  }

  function Flatten(cs: seq<seq<string>>): seq<string> {
    if cs == [] then [] else Flatten(cs[..|cs| - 1]) + cs[|cs| - 1]
  }

  /** The buffer after the lines of one piece, from a fresh start. */
  function Fill(c: seq<string>, lang: string, removeLemmata: bool): Scan {
    if c == [] then Fresh else Buffer(Fill(c[..|c| - 1], lang, removeLemmata), c[|c| - 1], lang, removeLemmata)
  }

  /** What the pieces `cs`, each flushed in turn, write. */
  function EmitAll(cs: seq<seq<string>>, lang: string, removeLemmata: bool): (seq<string>, seq<string>) {
    if cs == [] then ([], [])
    else
      var before := EmitAll(cs[..|cs| - 1], lang, removeLemmata);
      var e := Emitted(Fill(cs[|cs| - 1], lang, removeLemmata));
      (before.0 + e.0, before.1 + e.1)
  }

  /** The buffered lines: the piece itself, less its `#lem:` lines when lemmata are removed. */
  function Kept(c: seq<string>, removeLemmata: bool): seq<string> {
    if c == [] then []
    else Kept(c[..|c| - 1], removeLemmata) + (if removeLemmata && IsLem(c[|c| - 1]) then [] else [c[|c| - 1]])
  }

  /** Only the first line of a piece begins with `&`. */
  predicate OneTablet(c: seq<string>) {
    forall j :: 0 < j < |c| ==> !StartsWith(c[j], "&")
  }

  /** One more line either opens a new piece or extends the last one. */
  lemma ChunksStep(t: seq<string>, x: string)
    ensures Chunks(t + [x]) ==
      if StartsWith(x, "&") then Chunks(t) + [[x]]
      else Chunks(t)[..|Chunks(t)| - 1] + [Last(Chunks(t)) + [x]]
  {
    assert (t + [x])[..|t|] == t;
  }

  lemma Unsnoc<T>(cs: seq<seq<T>>)
    requires |cs| > 0
    ensures cs == cs[..|cs| - 1] + [Last(cs)]
  {
  }

  /** Cutting loses and reorders nothing. */
  lemma {:induction false} ChunksFlatten(t: seq<string>)
    ensures Flatten(Chunks(t)) == t
    decreases |t|
  {
    if t != [] {
      var t' := t[..|t| - 1];
      var x := t[|t| - 1];
      assert t == t' + [x];
      ChunksFlatten(t');
      ChunksStep(t', x);
      var cs := Chunks(t');
      var n := |cs| - 1;
      if StartsWith(x, "&") {
        assert (cs + [[x]])[..|cs|] == cs;
      } else {
        var cs' := Chunks(t);
        assert cs'[..n] == cs[..n];
        Unsnoc(cs);
        assert Flatten(cs) == Flatten(cs[..n]) + cs[n];
        assert Flatten(cs') == Flatten(cs[..n]) + (cs[n] + [x]);
      }
    }
  }

  /** Every piece holds at most one `&` line, its first, and every piece after the leading one begins with one. */
  predicate Shaped(cs: seq<seq<string>>) {
    && (forall k :: 0 <= k < |cs| ==> OneTablet(cs[k]))
    && (forall k :: 0 < k < |cs| ==> cs[k] != [] && StartsWith(cs[k][0], "&"))
  }

  lemma {:induction false} ChunksShape(t: seq<string>)
    ensures Shaped(Chunks(t))
    decreases |t|
  {
    if t != [] {
      var t' := t[..|t| - 1];
      var x := t[|t| - 1];
      assert t == t' + [x];
      ChunksShape(t');
      ChunksStep(t', x);
      if StartsWith(x, "&") {
        OpenShaped(Chunks(t'), x);
      } else {
        ExtendShaped(Chunks(t'), x);
      }
    }
  }

  lemma OpenShaped(cs: seq<seq<string>>, x: string)
    requires Shaped(cs) && StartsWith(x, "&")
    ensures Shaped(cs + [[x]])
  {
  }

  lemma ExtendShaped(cs: seq<seq<string>>, x: string)
    requires |cs| > 0 && Shaped(cs) && !StartsWith(x, "&")
    ensures Shaped(cs[..|cs| - 1] + [Last(cs) + [x]])
  {
    var c := Last(cs) + [x];
    assert OneTablet(c);
    var cs' := cs[..|cs| - 1] + [c];
    assert forall k :: 0 <= k < |cs| - 1 ==> cs'[k] == cs[k];
  }

  /**
   * Cutting loses and reorders nothing; every piece holds at most one `&`
   * line, its first, and every piece after the leading one begins with one.
   */
  lemma ChunksCover(t: seq<string>)
    ensures Flatten(Chunks(t)) == t
    ensures forall k :: 0 <= k < |Chunks(t)| ==> OneTablet(Chunks(t)[k])
    ensures forall k :: 0 < k < |Chunks(t)| ==> Chunks(t)[k] != [] && StartsWith(Chunks(t)[k][0], "&")
  {
    ChunksFlatten(t);
    ChunksShape(t);
  }

  /**
   * The buffer after one tablet: `valid` exactly when one of its lines
   * declares the language, `hasLemma` exactly when one is a `#lem:` line, and
   * the buffered lines are the tablet's lines, less the `#lem:` lines when
   * lemmata are removed.
   */
  lemma FillTablet(c: seq<string>, lang: string, removeLemmata: bool)
    requires OneTablet(c)
    ensures Fill(c, lang, removeLemmata).valid <==> exists l :: l in c && Declares(l, lang)
    ensures Fill(c, lang, removeLemmata).hasLemma <==> exists l :: l in c && IsLem(l)
    ensures Fill(c, lang, removeLemmata).lines == Kept(c, removeLemmata)
  {
    FillValid(c, lang, removeLemmata);
    FillHasLemma(c, lang, removeLemmata);
    FillLines(c, lang, removeLemmata);
  }

  lemma {:induction false} FillValid(c: seq<string>, lang: string, removeLemmata: bool)
    requires OneTablet(c)
    ensures Fill(c, lang, removeLemmata).valid <==> exists l :: l in c && Declares(l, lang)
    decreases |c|
  {
    if c != [] {
      var c' := c[..|c| - 1];
      var x := c[|c| - 1];
      assert c == c' + [x];
      assert OneTablet(c');
      FillValid(c', lang, removeLemmata);
      var f := Fill(c', lang, removeLemmata);
      if StartsWith(x, "&") {
        assert c' == [];
        assert !IsLangLine(x) by {
          assert x[0] == '&';
        }
        assert forall l :: l in c ==> l == x;
      } else if IsLangLine(x) {
        assert Fill(c, lang, removeLemmata).valid == (f.valid || EndsWith(x, lang));
        if EndsWith(x, lang) {
          assert x in c && Declares(x, lang);
        } else {
          SomeBefore(c', x, lang);
        }
      } else {
        SomeBefore(c', x, lang);
      }
    }
  }

  lemma {:induction false} FillHasLemma(c: seq<string>, lang: string, removeLemmata: bool)
    requires OneTablet(c)
    ensures Fill(c, lang, removeLemmata).hasLemma <==> exists l :: l in c && IsLem(l)
    decreases |c|
  {
    if c != [] {
      var c' := c[..|c| - 1];
      var x := c[|c| - 1];
      assert c == c' + [x];
      assert OneTablet(c');
      FillHasLemma(c', lang, removeLemmata);
      if StartsWith(x, "&") {
        assert c' == [];
        assert !IsLem(x) by {
          assert x[0] == '&';
        }
        assert forall l :: l in c ==> l == x;
      } else if IsLangLine(x) {
        assert !IsLem(x) by {
          assert x[1] == 'a';
        }
        LemBefore(c', x);
      } else if IsLem(x) {
        assert x in c;
      } else {
        LemBefore(c', x);
      }
    }
  }

  lemma {:induction false} FillLines(c: seq<string>, lang: string, removeLemmata: bool)
    requires OneTablet(c)
    ensures Fill(c, lang, removeLemmata).lines == Kept(c, removeLemmata)
    decreases |c|
  {
    if c != [] {
      var c' := c[..|c| - 1];
      var x := c[|c| - 1];
      assert c == c' + [x];
      assert OneTablet(c');
      FillLines(c', lang, removeLemmata);
      if StartsWith(x, "&") {
        assert c' == [];
        assert !IsLangLine(x) && !IsLem(x) by {
          assert x[0] == '&';
        }
      } else if IsLangLine(x) {
        assert !IsLem(x) by {
          assert x[1] == 'a';
        }
      }
    }
  }

  lemma LemBefore(c: seq<string>, x: string)
    requires !IsLem(x)
    ensures (exists l :: l in c + [x] && IsLem(l)) <==> (exists l :: l in c && IsLem(l))
  {
    if l :| l in c + [x] && IsLem(l) {
      assert l in c;
    }
  }

  lemma SomeBefore(c: seq<string>, x: string, lang: string)
    requires !Declares(x, lang)
    ensures (exists l :: l in c + [x] && Declares(l, lang)) <==> (exists l :: l in c && Declares(l, lang))
  {
    if l :| l in c + [x] && Declares(l, lang) {
      assert l in c;
    }
  }

  /**
   * What the loop holds once it has reached the last of the stripped lines
   * `u`: the buffer holds the lines since the latest `&` line (none if that
   * last line begins a tablet and so caused a flush), and the outputs hold
   * every piece of `u` but the last, flushed in turn.
   */
  ghost predicate Tracks(p: Progress, u: seq<string>, lang: string, removeLemmata: bool)
    requires u != []
  {
    var before := u[..|u| - 1];
    && p.st == (if before != [] && StartsWith(u[|u| - 1], "&") then Fresh else Fill(Last(Chunks(before)), lang, removeLemmata))
    && (p.lemmatized, p.unlemmatized) == EmitAll(Chunks(u)[..|Chunks(u)| - 1], lang, removeLemmata)
  }

  /** After `i` pairs, the loop holds what `Tracks` says of lines `0..i`. */
  lemma {:induction false} RunByChunks(input: seq<string>, i: nat, lang: string, removeLemmata: bool)
    requires i < |input|
    ensures Tracks(Run(Pairwise(input)[..i], lang, removeLemmata), StripAll(input)[..i + 1], lang, removeLemmata)
    decreases i
  {
    var t := StripAll(input);
    var pairs := Pairwise(input);
    if i == 0 {
      RunFirst(t[..1], lang, removeLemmata);
    } else {
      var j := i - 1;
      RunByChunks(input, j, lang, removeLemmata);
      TakeSnoc(pairs, j);
      TakeSnoc(t, i);
      TrackStep(Run(pairs[..j], lang, removeLemmata), t[..i], t[i], pairs[j], lang, removeLemmata);
    }
  }

  lemma RunFirst(u: seq<string>, lang: string, removeLemmata: bool)
    requires |u| == 1
    ensures Tracks(Progress(Fresh, [], []), u, lang, removeLemmata)
  {
    assert u == [] + [u[0]];
    assert u[..0] == [];
    ChunksStep([], u[0]);
  }

  /** The buffer after the last line of `u` is the fill of the latest piece of `u`. */
  lemma BufferFill(st: Scan, u: seq<string>, lang: string, removeLemmata: bool)
    requires u != []
    requires var before := u[..|u| - 1];
      st == (if before != [] && StartsWith(u[|u| - 1], "&") then Fresh else Fill(Last(Chunks(before)), lang, removeLemmata))
    ensures Buffer(st, u[|u| - 1], lang, removeLemmata) == Fill(Last(Chunks(u)), lang, removeLemmata)
  {
    var before := u[..|u| - 1];
    var x := u[|u| - 1];
    assert u == before + [x];
    ChunksStep(before, x);
    if !StartsWith(x, "&") {
      var last := Last(Chunks(before));
      assert Last(Chunks(u)) == last + [x];
      assert (last + [x])[..|last|] == last;
    } else {
      assert Last(Chunks(u)) == [x];
      assert [x][..0] == [];
    }
  }

  /** One pass of the loop, on the last line of `u` and the next line `y`, keeps `Tracks`. */
  lemma TrackStep(p: Progress, u: seq<string>, y: string, pair: (string, string), lang: string, removeLemmata: bool)
    requires u != [] && Strip(pair.0) == u[|u| - 1] && Strip(pair.1) == y
    requires Tracks(p, u, lang, removeLemmata)
    ensures Tracks(Pass(p, pair, lang, removeLemmata), u + [y], lang, removeLemmata)
  {
    if StartsWith(y, "&") {
      TrackFlush(p, u, y, pair, lang, removeLemmata);
    } else {
      TrackKeep(p, u, y, pair, lang, removeLemmata);
    }
  }

  /** `TrackStep` when `y` begins a tablet. */
  lemma TrackFlush(p: Progress, u: seq<string>, y: string, pair: (string, string), lang: string, removeLemmata: bool)
    requires u != [] && Strip(pair.0) == u[|u| - 1] && Strip(pair.1) == y && StartsWith(y, "&")
    requires Tracks(p, u, lang, removeLemmata)
    ensures Tracks(Pass(p, pair, lang, removeLemmata), u + [y], lang, removeLemmata)
  {
    assert (u + [y])[..|u|] == u;
    BufferFill(p.st, u, lang, removeLemmata);
    ChunksStep(u, y);
    FlushOut(p, Chunks(u), Chunks(u + [y]), y, pair, lang, removeLemmata);
  }

  /** `TrackStep` when `y` continues the tablet. */
  lemma TrackKeep(p: Progress, u: seq<string>, y: string, pair: (string, string), lang: string, removeLemmata: bool)
    requires u != [] && Strip(pair.0) == u[|u| - 1] && Strip(pair.1) == y && !StartsWith(y, "&")
    requires Tracks(p, u, lang, removeLemmata)
    ensures Tracks(Pass(p, pair, lang, removeLemmata), u + [y], lang, removeLemmata)
  {
    assert (u + [y])[..|u|] == u;
    BufferFill(p.st, u, lang, removeLemmata);
    ChunksStep(u, y);
    KeepOut(p, Chunks(u), Chunks(u + [y]), y, pair, lang, removeLemmata);
  }

  /** A pass whose next line begins a tablet flushes the latest piece. */
  lemma FlushOut(p: Progress, now: seq<seq<string>>, after: seq<seq<string>>, y: string,
                 pair: (string, string), lang: string, removeLemmata: bool)
    requires |now| > 0 && Strip(pair.1) == y && StartsWith(y, "&") && after == now + [[y]]
    requires (p.lemmatized, p.unlemmatized) == EmitAll(now[..|now| - 1], lang, removeLemmata)
    requires Buffer(p.st, Strip(pair.0), lang, removeLemmata) == Fill(Last(now), lang, removeLemmata)
    ensures Pass(p, pair, lang, removeLemmata).st == Fresh
    ensures (Pass(p, pair, lang, removeLemmata).lemmatized, Pass(p, pair, lang, removeLemmata).unlemmatized) ==
      EmitAll(after[..|after| - 1], lang, removeLemmata)
  {
    assert after[..|after| - 1] == now;
    Unsnoc(now);
    EmitAllStep(now, lang, removeLemmata);
  }

  /** A pass whose next line continues the tablet writes nothing. */
  lemma KeepOut(p: Progress, now: seq<seq<string>>, after: seq<seq<string>>, y: string,
                pair: (string, string), lang: string, removeLemmata: bool)
    requires |now| > 0 && Strip(pair.1) == y && !StartsWith(y, "&")
    requires after == now[..|now| - 1] + [Last(now) + [y]]
    requires (p.lemmatized, p.unlemmatized) == EmitAll(now[..|now| - 1], lang, removeLemmata)
    ensures Pass(p, pair, lang, removeLemmata).st == Buffer(p.st, Strip(pair.0), lang, removeLemmata)
    ensures (Pass(p, pair, lang, removeLemmata).lemmatized, Pass(p, pair, lang, removeLemmata).unlemmatized) ==
      EmitAll(after[..|after| - 1], lang, removeLemmata)
  {
    assert after[..|after| - 1] == now[..|now| - 1];
    assert Step(p.st, pair, lang, removeLemmata).1 == ([], []);
    assert p.lemmatized + [] == p.lemmatized && p.unlemmatized + [] == p.unlemmatized;
  }

  lemma EmitAllStep(cs: seq<seq<string>>, lang: string, removeLemmata: bool)
    requires |cs| > 0
    ensures EmitAll(cs, lang, removeLemmata).0 ==
      EmitAll(cs[..|cs| - 1], lang, removeLemmata).0 + Emitted(Fill(cs[|cs| - 1], lang, removeLemmata)).0
    ensures EmitAll(cs, lang, removeLemmata).1 ==
      EmitAll(cs[..|cs| - 1], lang, removeLemmata).1 + Emitted(Fill(cs[|cs| - 1], lang, removeLemmata)).1
  {
  }

  /**
   * The whole output, tablet by tablet: every piece of the input that is
   * followed by an `&` line is flushed in turn, and the last piece, which no
   * `&` line follows, is never written.
   */
  lemma GeneratedByTablets(input: seq<string>, lang: string, removeLemmata: bool)
    ensures Generated(input, lang, removeLemmata) ==
      EmitAll(Chunks(StripAll(input))[..|Chunks(StripAll(input))| - 1], lang, removeLemmata)
  {
    var t := StripAll(input);
    if input == [] {
      assert t == [];
      assert Chunks(t)[..0] == [];
    } else {
      RunByChunks(input, |input| - 1, lang, removeLemmata);
      TakeAll(Pairwise(input));
      TakeAll(t);
    }
  }

  /* ---------------- The loop as written: the buffer shares the input list ---------------- */

  /**
   * The loop as written: `lines` starts out as the very list `pairwise` is
   * iterating, so until the first reset (an `&` line or a flush) every
   * buffered line is also appended to the input still being read. While
   * `shared` holds, `st.lines` is that list, `source`.
   */
  datatype Aliased = Aliased(source: seq<string>, next: nat, shared: bool, st: Scan,
                             lemmatized: seq<string>, unlemmatized: seq<string>)

  function AliasStart(input: seq<string>): Aliased {
    Aliased(input, 0, true, Scan(false, false, input), [], [])
  }

  /** No pair is left: `izip` stops. */
  predicate Finished(w: Aliased) {
    w.next + 1 >= |w.source|
  }

  /**
   * One pass of the loop as written, on the pair at `next`: the same `Step`,
   * except that while the buffer is shared a line it buffers is also appended
   * to the input.
   */
  function AsWrittenStep(w: Aliased, lang: string, removeLemmata: bool): Aliased
    requires !Finished(w)
  {
    var line1 := Strip(w.source[w.next]);
    var (st, out) := Step(w.st, (w.source[w.next], w.source[w.next + 1]), lang, removeLemmata);
    var appending := w.shared && !StartsWith(line1, "&");
    var source := if appending then Buffer(w.st, line1, lang, removeLemmata).lines else w.source;
    var shared := appending && !StartsWith(Strip(w.source[w.next + 1]), "&");
    Aliased(source, w.next + 1, shared, st, w.lemmatized + out.0, w.unlemmatized + out.1)
  }

  /**
   * `ws` is a run of the loop as written: every state but the last leaves a
   * pair to read, and the next state is one pass after it. A run whose last
   * state is not `Finished` goes on with one more pass.
   */
  predicate IsRun(ws: seq<Aliased>, lang: string, removeLemmata: bool) {
    forall i :: 0 <= i < |ws| - 1 ==>
      !Finished(ws[i]) && ws[i + 1] == AsWrittenStep(ws[i], lang, removeLemmata)
  }

  /** The loop is deterministic: two runs from the same state agree for as long as both last. */
  lemma {:induction false} RunsAgree(ws: seq<Aliased>, vs: seq<Aliased>, lang: string, removeLemmata: bool)
    requires IsRun(ws, lang, removeLemmata) && IsRun(vs, lang, removeLemmata)
    requires 0 < |ws| <= |vs| && ws[0] == vs[0]
    ensures ws == vs[..|ws|]
    decreases |ws|
  {
    if |ws| > 1 {
      var n := |ws| - 1;
      assert IsRun(ws[..n], lang, removeLemmata);
      assert IsRun(vs[..n], lang, removeLemmata);
      RunsAgree(ws[..n], vs[..n], lang, removeLemmata);
      assert ws[n - 1] == vs[n - 1];
      assert ws == ws[..n] + [ws[n]];
    }
  }

  /**
   * The loop as written on copies of `a`: the buffer is still the input,
   * which holds only `a` lines, one more than have been read, and nothing
   * has been written.
   */
  predicate Spinning(w: Aliased) {
    && w.shared && w.st == Scan(false, false, w.source) && |w.source| == w.next + 2
    && w.lemmatized == [] && w.unlemmatized == []
    && forall i :: 0 <= i < |w.source| ==> w.source[i] == "a"
  }

  lemma PlainLine()
    ensures Strip("a") == "a" && !StartsWith("a", "&") && !IsLangLine("a") && !IsLem("a")
  {
    assert "a"[..1][0] == 'a';
  }

  /** The pair `a`, `a` only buffers an `a`. */
  lemma PlainStep(src: seq<string>, lang: string, removeLemmata: bool)
    ensures Buffer(Scan(false, false, src), "a", lang, removeLemmata) == Scan(false, false, src + ["a"])
    ensures Step(Scan(false, false, src), ("a", "a"), lang, removeLemmata) == (Scan(false, false, src + ["a"]), ([], []))
  {
    PlainLine();
  }

  /** A pass on the pair `a`, `a` while the buffer is the input appends an `a` to the input. */
  lemma SpinPass(src: seq<string>, j: nat, lang: string, removeLemmata: bool)
    requires |src| == j + 2 && src[j] == "a" && src[j + 1] == "a"
    ensures AsWrittenStep(Aliased(src, j, true, Scan(false, false, src), [], []), lang, removeLemmata) ==
      Aliased(src + ["a"], j + 1, true, Scan(false, false, src + ["a"]), [], [])
  {
    PlainLine();
    PlainStep(src, lang, removeLemmata);
  }

  /** A pass on copies of `a` leaves copies of `a`, one more than have been read. */
  lemma SpinStep(w: Aliased, lang: string, removeLemmata: bool)
    requires Spinning(w)
    ensures !Finished(w) && Spinning(AsWrittenStep(w, lang, removeLemmata))
  {
    var src := w.source;
    assert w == Aliased(src, w.next, true, Scan(false, false, src), [], []);
    assert src[w.next] == "a" && src[w.next + 1] == "a";
    SpinPass(src, w.next, lang, removeLemmata);
    SpinGrows(src, w.next);
  }

  /** One more `a` on an input of copies of `a` keeps it spinning. */
  lemma SpinGrows(src: seq<string>, j: nat)
    requires |src| == j + 2 && forall i :: 0 <= i < |src| ==> src[i] == "a"
    ensures Spinning(Aliased(src + ["a"], j + 1, true, Scan(false, false, src + ["a"]), [], []))
  {
    var s2 := src + ["a"];
    assert forall i :: 0 <= i < |s2| ==> s2[i] == "a";
  }

  /**
   * On the input `a`, `a`, which holds no `&` line, every run of the loop as
   * written ends with a pair still to read: the loop never ends.
   */
  lemma {:induction false} AliasedNeverEnds(ws: seq<Aliased>, lang: string, removeLemmata: bool)
    requires ws != [] && ws[0] == AliasStart(["a", "a"]) && IsRun(ws, lang, removeLemmata)
    ensures Spinning(ws[|ws| - 1]) && !Finished(ws[|ws| - 1])
    decreases |ws|
  {
    var n := |ws| - 1;
    if n == 0 {
      assert Spinning(ws[0]);
    } else {
      assert IsRun(ws[..n], lang, removeLemmata);
      AliasedNeverEnds(ws[..n], lang, removeLemmata);
      SpinStep(ws[n - 1], lang, removeLemmata);
    }
    SpinStep(ws[n], lang, removeLemmata);
  }

  /** Once the buffer no longer shares the input, a pass of the loop as written is a `Step`. */
  lemma UnsharedStep(w: Aliased, lang: string, removeLemmata: bool)
    requires !w.shared && !Finished(w)
    ensures AsWrittenStep(w, lang, removeLemmata) ==
      var (st, out) := Step(w.st, (w.source[w.next], w.source[w.next + 1]), lang, removeLemmata);
      Aliased(w.source, w.next + 1, false, st, w.lemmatized + out.0, w.unlemmatized + out.1)
  {
  }

  /** The loop as written after `k` passes, if it agrees with `Run`: the input is unchanged. */
  function MirrorAt(input: seq<string>, k: nat, lang: string, removeLemmata: bool): Aliased
    requires k <= |Pairwise(input)|
  {
    var p := Run(Pairwise(input)[..k], lang, removeLemmata);
    Aliased(input, k, false, p.st, p.lemmatized, p.unlemmatized)
  }

  /** An `&` line first: the first pass rebinds the buffer before anything is appended. */
  lemma FirstPass(input: seq<string>, lang: string, removeLemmata: bool)
    requires 1 < |input| && StartsWith(Strip(input[0]), "&")
    ensures AsWrittenStep(AliasStart(input), lang, removeLemmata) == MirrorAt(input, 1, lang, removeLemmata)
  {
    var pairs := Pairwise(input);
    var line1 := Strip(input[0]);
    assert pairs[..1] == [pairs[0]] && pairs[0] == (input[0], input[1]);
    assert pairs[..1][..0] == [];
    assert Run(pairs[..1][..0], lang, removeLemmata) == Progress(Fresh, [], []);
    assert Buffer(Scan(false, false, input), line1, lang, removeLemmata) == Buffer(Fresh, line1, lang, removeLemmata);
  }

  /** Any later pass on an unshared buffer is the next `Step` of `Run`. */
  lemma MirrorStep(input: seq<string>, k: nat, lang: string, removeLemmata: bool)
    requires 0 < k < |input| - 1
    ensures AsWrittenStep(MirrorAt(input, k, lang, removeLemmata), lang, removeLemmata) ==
      MirrorAt(input, k + 1, lang, removeLemmata)
  {
    UnsharedStep(MirrorAt(input, k, lang, removeLemmata), lang, removeLemmata);
    RunStep(Pairwise(input), k, lang, removeLemmata);
  }

  /** After its first pass, a run of the loop as written from an `&` line is `Run` on the input unchanged. */
  lemma {:induction false} MirrorsRun(input: seq<string>, ws: seq<Aliased>, lang: string, removeLemmata: bool)
    requires input != [] && StartsWith(Strip(input[0]), "&")
    requires 1 < |ws| && ws[0] == AliasStart(input) && IsRun(ws, lang, removeLemmata)
    ensures |ws| <= |input| && ws[|ws| - 1] == MirrorAt(input, |ws| - 1, lang, removeLemmata)
    decreases |ws|
  {
    var n := |ws| - 1;
    if n == 1 {
      FirstPass(input, lang, removeLemmata);
    } else {
      assert IsRun(ws[..n], lang, removeLemmata);
      MirrorsRun(input, ws[..n], lang, removeLemmata);
      MirrorStep(input, n - 1, lang, removeLemmata);
    }
  }

  /**
   * When the input begins with an `&` line, the first pass rebinds the buffer
   * before anything is appended: the loop as written ends after exactly
   * `|input| - 1` passes and writes what `Parse` writes.
   */
  lemma AsWrittenAgrees(input: seq<string>, ws: seq<Aliased>, lang: string, removeLemmata: bool)
    requires input != [] && StartsWith(Strip(input[0]), "&")
    requires ws != [] && ws[0] == AliasStart(input) && IsRun(ws, lang, removeLemmata)
    ensures |ws| <= |input|
    ensures Finished(ws[|ws| - 1]) <==> |ws| == |input|
    ensures |ws| == |input| ==>
      (ws[|ws| - 1].lemmatized, ws[|ws| - 1].unlemmatized) == Generated(input, lang, removeLemmata)
  {
    if |ws| > 1 {
      MirrorsRun(input, ws, lang, removeLemmata);
      TakeAll(Pairwise(input));
    } else {
      assert |input| == 1 ==> Pairwise(input) == [];
    }
  }
}
