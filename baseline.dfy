/**
 * The most-common-tag baseline (baseline.py): every training word is tagged
 * with the tag it carries most often in the training corpus, an unknown word
 * is guessed to be a personal name (`PN`), and the guesses on the testing
 * corpus are tallied in a confusion matrix kept separately for known and for
 * novel words.
 */
module Baseline {
  import opened Strings
  import opened Counters

  // ---------------------------------------------------------------------------
  // `get_elements`

  /** The tab-separated fields of a line, after `strip`. */
  function Fields(line: string): (r: seq<string>)
    ensures |r| >= 1
  {
    Split(Strip(line), '\t')
  }

  /** What one line yields: its first and last field, when it has at least two. */
  function LineElements(line: string): seq<(string, string)> {
    var f := Fields(line);
    if |f| > 1 then [(f[0], f[|f| - 1])] else []
  }

  /** The elements of `lines`, line by line. */
  function ElementsOf(lines: seq<string>): seq<(string, string)> {
    if lines == [] then [] else ElementsOf(lines[..|lines| - 1]) + LineElements(lines[|lines| - 1])
  }

  /** `get_elements(filename, skip_first)`: `del lines[0]` needs a first line. */
  function Elements(lines: seq<string>, skipFirst: bool): seq<(string, string)>
    requires skipFirst ==> |lines| > 0
  {
    ElementsOf(if skipFirst then lines[1..] else lines)
  }

  /** The lines that yield an element: blank lines and `<l>`, `</l>` lines yield none. */
  function Yielding(lines: seq<string>): nat {
    if lines == [] then 0 else Yielding(lines[..|lines| - 1]) + (if |Fields(lines[|lines| - 1])| > 1 then 1 else 0)
  }

  /** One more line adds its own elements at the end. */
  lemma ElementsSnoc(lines: seq<string>, last: string)
    ensures ElementsOf(lines + [last]) == ElementsOf(lines) + LineElements(last)
  {
    SnocParts(lines, last);
  }

  /** The elements of two stretches of lines one after the other: the order of the lines is kept. */
  lemma {:induction false} ElementsAppend(a: seq<string>, b: seq<string>)
    ensures ElementsOf(a + b) == ElementsOf(a) + ElementsOf(b)
    decreases |b|
  {
    if b == [] {
      assert a + b == a;
    } else {
      var b', last := b[..|b| - 1], b[|b| - 1];
      assert b == b' + [last];
      assert a + b == (a + b') + [last];
      ElementsAppend(a, b');
      ElementsSnoc(a + b', last);
      ElementsSnoc(b', last);
      SeqAssoc(ElementsOf(a), ElementsOf(b'), LineElements(last));
    }
  }

  /** One element per line with at least two fields, and no more. */
  lemma {:induction false} ElementsCount(lines: seq<string>)
    ensures |ElementsOf(lines)| == Yielding(lines)
    decreases |lines|
  {
    if lines != [] {
      ElementsCount(lines[..|lines| - 1]);
    }
  }

  /** A yielded word or tag is a whole field: it holds no tab. */
  lemma {:induction false} ElementsHaveNoTab(lines: seq<string>, k: nat)
    requires k < |ElementsOf(lines)|
    ensures '\t' !in ElementsOf(lines)[k].0 && '\t' !in ElementsOf(lines)[k].1
    decreases |lines|
  {
    var front := ElementsOf(lines[..|lines| - 1]);
    if k < |front| {
      ElementsHaveNoTab(lines[..|lines| - 1], k);
    } else {
      var line := lines[|lines| - 1];
      SplitPiecesFree(Strip(line), '\t');
    }
  }

  // ---------------------------------------------------------------------------
  // Counting the training elements

  /** The counter of `w`, or an empty one: `if not word in INDEX: INDEX[word] = Counter()`. */
  function CountOf(ix: map<string, Counter>, w: string): Counter {
    if w in ix then ix[w] else []
  }

  /** The index after counting each element in turn: `INDEX[word][pos] += 1`. */
  function Counted(ix: map<string, Counter>, es: seq<(string, string)>): map<string, Counter> {
    if es == [] then ix
    else
      var prev := Counted(ix, es[..|es| - 1]);
      var e := es[|es| - 1];
      prev[e.0 := Inc(CountOf(prev, e.0), e.1, 1)]
  }

  /** How many elements are the pair `(w, p)`. */
  function Occurrences(es: seq<(string, string)>, w: string, p: string): nat {
    if es == [] then 0 else Occurrences(es[..|es| - 1], w, p) + (if es[|es| - 1] == (w, p) then 1 else 0)
  }

  /** Some element has the word `w`. */
  predicate Mentions(es: seq<(string, string)>, w: string) {
    es != [] && (Mentions(es[..|es| - 1], w) || es[|es| - 1].0 == w)
  }

  /** A word is indexed exactly when it was indexed before or some element has it. */
  lemma {:induction false} CountedKeys(ix: map<string, Counter>, es: seq<(string, string)>, w: string)
    ensures w in Counted(ix, es) <==> w in ix || Mentions(es, w)
    decreases |es|
  {
    if es != [] {
      CountedKeys(ix, es[..|es| - 1], w);
    }
  }

  /** Each count grows by the number of elements that are exactly that word and tag. */
  lemma {:induction false} CountedGet(ix: map<string, Counter>, es: seq<(string, string)>, w: string, p: string)
    ensures Get(CountOf(Counted(ix, es), w), p) == Get(CountOf(ix, w), p) + Occurrences(es, w, p)
    decreases |es|
  {
    if es != [] {
      CountedGet(ix, es[..|es| - 1], w, p);
    }
  }

  /** Every counter of the index lists each tag once and holds at least one tag. */
  predicate WellFormed(ix: map<string, Counter>) {
    forall w :: w in ix ==> Distinct(ix[w]) && |ix[w]| > 0
  }

  /** Counting keeps the index well formed. */
  lemma {:induction false} CountedWellFormed(ix: map<string, Counter>, es: seq<(string, string)>)
    requires WellFormed(ix)
    ensures WellFormed(Counted(ix, es))
    decreases |es|
  {
    if es != [] {
      CountedWellFormed(ix, es[..|es| - 1]);
      var prev := Counted(ix, es[..|es| - 1]);
      var e := es[|es| - 1];
      assert Distinct(CountOf(prev, e.0));
    }
  }

  // ---------------------------------------------------------------------------
  // `optimizeIndex`

  /** `most_common(1)[0][0]`: the first of the most common tags of a counter. */
  function TopTag(c: Counter): string
    requires |c| > 0
  {
    MostCommon(c).value.0
  }

  /** Each word's tag after `optimizeIndex`: the first of the most common tags of its counter. */
  function Best(ix: map<string, Counter>): (tags: map<string, string>)
    requires forall w :: w in ix ==> |ix[w]| > 0
    ensures tags.Keys == ix.Keys
  {
    map w | w in ix :: TopTag(ix[w])
  }

  /** The tag chosen for a word is one of its tags and none of its tags is more frequent. */
  lemma BestIsMostFrequent(ix: map<string, Counter>, w: string, p: string)
    requires WellFormed(ix) && w in ix
    ensures HasKey(ix[w], Best(ix)[w])
    ensures HasKey(ix[w], p) ==> Get(ix[w], p) <= Get(ix[w], Best(ix)[w])
  {
    MostCommonIsMax(ix[w], p);
  }

  /**
   * What `buildIndex` achieves on a fresh index: the words tagged are exactly
   * the words of the training elements, and each is tagged with a tag it
   * carries at least as often as any other.
   */
  lemma TrainedTags(es: seq<(string, string)>, w: string, p: string)
    ensures var ix := Counted(map[], es);
      WellFormed(ix) && (w in Best(ix) <==> Mentions(es, w))
    ensures var ix := Counted(map[], es);
      w in ix ==> Occurrences(es, w, p) <= Occurrences(es, w, Best(ix)[w])
  {
    var ix := Counted(map[], es);
    CountedWellFormed(map[], es);
    CountedKeys(map[], es, w);
    if w in ix {
      var best := Best(ix)[w];
      CountedGet(map[], es, w, p);
      CountedGet(map[], es, w, best);
      BestIsMostFrequent(ix, w, p);
      if !HasKey(ix[w], p) {
        GetMissing(ix[w], p);
      }
    }
  }

  // ---------------------------------------------------------------------------
  // The evaluation

  /** The eight counters of `evaluate`: true/false positives/negatives for known and for novel words. */
  datatype Scores = Scores(ktp: nat, kfp: nat, ktn: nat, kfn: nat, ntp: nat, nfp: nat, ntn: nat, nfn: nat)

  function KnownTotal(s: Scores): nat {
    s.ktp + s.kfp + s.ktn + s.kfn
  }

  function NovelTotal(s: Scores): nat {
    s.ntp + s.nfp + s.ntn + s.nfn
  }

  /** The tag guessed for a word: its indexed tag, or `PN` for a novel word. */
  function Guess(tags: map<string, string>, word: string): string {
    if word in tags then tags[word] else "PN"
  }

  /** The counters after one more element: the branches of `evaluate`. */
  function Scored(s: Scores, known: bool, guess: bool, truth: bool): Scores {
    if guess == truth then
      if guess then
        if known then s.(ktp := s.ktp + 1) else s.(ntp := s.ntp + 1)
      else
        if known then s.(ktn := s.ktn + 1) else s.(ntn := s.ntn + 1)
    else
      if guess then
        if known then s.(kfp := s.kfp + 1) else s.(nfp := s.nfp + 1)
      else
        if known then s.(kfn := s.kfn + 1) else s.(nfn := s.nfn + 1)
  }

  /** The counters after the elements `es`, from zero. */
  function Tally(tags: map<string, string>, es: seq<(string, string)>): Scores {
    if es == [] then Scores(0, 0, 0, 0, 0, 0, 0, 0)
    else
      var e := es[|es| - 1];
      Scored(Tally(tags, es[..|es| - 1]), e.0 in tags, Guess(tags, e.0) == "PN", e.1 == "PN")
  }

  /**
   * Each element increments exactly one counter: the known counters only for
   * a known word, the novel ones only for a novel word, a positive exactly
   * when the guess is `PN` and a true one exactly when the guess is right.
   */
  lemma ScoredOne(s: Scores, known: bool, guess: bool, truth: bool)
    ensures var r := Scored(s, known, guess, truth);
      && KnownTotal(r) == KnownTotal(s) + (if known then 1 else 0)
      && NovelTotal(r) == NovelTotal(s) + (if known then 0 else 1)
      && r.ktp + r.ntp == s.ktp + s.ntp + (if guess && truth then 1 else 0)
      && r.kfp + r.nfp == s.kfp + s.nfp + (if guess && !truth then 1 else 0)
      && r.ktn + r.ntn == s.ktn + s.ntn + (if !guess && !truth then 1 else 0)
      && r.kfn + r.nfn == s.kfn + s.nfn + (if !guess && truth then 1 else 0)
    ensures var r := Scored(s, known, guess, truth);
      && r.ktp >= s.ktp && r.kfp >= s.kfp && r.ktn >= s.ktn && r.kfn >= s.kfn
      && r.ntp >= s.ntp && r.nfp >= s.nfp && r.ntn >= s.ntn && r.nfn >= s.nfn
  {
  }

  /** How many elements have a known word. */
  function KnownCount(tags: map<string, string>, es: seq<(string, string)>): nat {
    if es == [] then 0 else KnownCount(tags, es[..|es| - 1]) + (if es[|es| - 1].0 in tags then 1 else 0)
  }

  /** How many elements are truly tagged `PN`. */
  function NameCount(es: seq<(string, string)>): nat {
    if es == [] then 0 else NameCount(es[..|es| - 1]) + (if es[|es| - 1].1 == "PN" then 1 else 0)
  }

  /** The tally after one more element, seen from the element's side. */
  lemma TallySnoc(tags: map<string, string>, es: seq<(string, string)>, i: nat)
    requires i < |es|
    ensures Tally(tags, es[..i + 1]) == Scored(Tally(tags, es[..i]), es[i].0 in tags, Guess(tags, es[i].0) == "PN", es[i].1 == "PN")
  {
    assert es[..i + 1][..i] == es[..i];
  }

  /** The known counters count the elements whose word is known. */
  lemma {:induction false} TallyKnown(tags: map<string, string>, es: seq<(string, string)>)
    ensures KnownTotal(Tally(tags, es)) == KnownCount(tags, es)
    decreases |es|
  {
    if es != [] {
      var e := es[|es| - 1];
      TallyKnown(tags, es[..|es| - 1]);
      ScoredOne(Tally(tags, es[..|es| - 1]), e.0 in tags, Guess(tags, e.0) == "PN", e.1 == "PN");
    }
  }

  /** Every element is counted once: the eight counters add up to the number of elements. */
  lemma {:induction false} TallyTotal(tags: map<string, string>, es: seq<(string, string)>)
    ensures KnownTotal(Tally(tags, es)) + NovelTotal(Tally(tags, es)) == |es|
    decreases |es|
  {
    if es != [] {
      var e := es[|es| - 1];
      TallyTotal(tags, es[..|es| - 1]);
      ScoredOne(Tally(tags, es[..|es| - 1]), e.0 in tags, Guess(tags, e.0) == "PN", e.1 == "PN");
    }
  }

  /** The true positives and the false negatives together count the elements truly tagged `PN`. */
  lemma {:induction false} TallyNames(tags: map<string, string>, es: seq<(string, string)>)
    ensures var s := Tally(tags, es); s.ktp + s.ntp + s.kfn + s.nfn == NameCount(es)
    decreases |es|
  {
    if es != [] {
      var e := es[|es| - 1];
      TallyNames(tags, es[..|es| - 1]);
      ScoredOne(Tally(tags, es[..|es| - 1]), e.0 in tags, Guess(tags, e.0) == "PN", e.1 == "PN");
    }
  }

  /** A novel word is always guessed `PN`, so the novel negatives stay at zero. */
  lemma {:induction false} NovelNeverNegative(tags: map<string, string>, es: seq<(string, string)>)
    ensures Tally(tags, es).ntn == 0 && Tally(tags, es).nfn == 0
    decreases |es|
  {
    if es != [] {
      NovelNeverNegative(tags, es[..|es| - 1]);
    }
  }

  // ---------------------------------------------------------------------------
  // The index object

  class Index {
    /** `INDEX` while `buildIndex` counts: each word with the counts of its tags. */
    var counts: map<string, Counter>
    /** `INDEX` after `optimizeIndex`: each word with its chosen tag. */
    var tags: map<string, string>

    constructor()
      ensures counts == map[] && tags == map[]
    {
      counts := map[];
      tags := map[];
    }

    /** The counting loop of `buildIndex`. */
    method Count(es: seq<(string, string)>)
      modifies this`counts
      ensures counts == Counted(old(counts), es)
    {
      for i := 0 to |es|
        invariant counts == Counted(old(counts), es[..i])
      {
        var (word, pos) := es[i];
        if word !in counts {
          counts := counts[word := []];
        }
        var counter := counts[word];
        assert counter == CountOf(Counted(old(counts), es[..i]), word);
        counts := counts[word := Inc(counter, pos, 1)];
        TakeSnoc(es, i);
      }
      TakeAll(es);
    }

    /** `optimizeIndex`: each word keeps only its most common tag. */
    method Optimize()
      requires forall w :: w in counts ==> |counts[w]| > 0
      modifies this`tags
      ensures tags == Best(counts)
    {
      var cs := counts;
      var ts := map[];
      var todo := cs.Keys;
      while todo != {}
        invariant todo <= cs.Keys
        invariant ts.Keys == cs.Keys - todo
        invariant forall w :: w in ts ==> ts[w] == TopTag(cs[w])
        decreases |todo|
      {
        var word :| word in todo;
        ts := ts[word := TopTag(cs[word])];
        todo := todo - {word};
      }
      tags := ts;
    }

    /** `buildIndex`: count the training elements, skipping the header line, then optimize. */
    method BuildIndex(train: seq<string>)
      requires |train| > 0 && WellFormed(counts)
      modifies this
      ensures counts == Counted(old(counts), Elements(train, true))
      ensures WellFormed(counts)
      ensures tags == Best(counts)
    {
      Count(Elements(train, true));
      CountedWellFormed(old(counts), Elements(train, true));
      Optimize();
    }

    /** The counting loop of `evaluate` over the testing elements. */
    method Evaluate(test: seq<string>) returns (s: Scores)
      ensures s == Tally(tags, Elements(test, false))
    {
      var es := Elements(test, false);
      var ktp, kfp, ktn, kfn := 0, 0, 0, 0;
      var ntp, nfp, ntn, nfn := 0, 0, 0, 0;
      for i := 0 to |es|
        invariant Scores(ktp, kfp, ktn, kfn, ntp, nfp, ntn, nfn) == Tally(tags, es[..i])
      {
        var (word, pos) := es[i];
        var known := word in tags;
        var guess: string;
        if known {
          guess := tags[word];
        } else {
          guess := "PN";
        }
        var guessed := "PN" == guess;
        var truth := "PN" == pos;
        ghost var before := Scores(ktp, kfp, ktn, kfn, ntp, nfp, ntn, nfn);
        if guessed == truth {
          if guessed {
            if known { ktp := ktp + 1; } else { ntp := ntp + 1; }
          } else {
            if known { ktn := ktn + 1; } else { ntn := ntn + 1; }
          }
        } else {
          if guessed {
            if known { kfp := kfp + 1; } else { nfp := nfp + 1; }
          } else {
            if known { kfn := kfn + 1; } else { nfn := nfn + 1; }
          }
        }
        assert Scores(ktp, kfp, ktn, kfn, ntp, nfp, ntn, nfn) == Scored(before, known, guessed, truth);
        TallySnoc(tags, es, i);
      }
      TakeAll(es);
      s := Scores(ktp, kfp, ktn, kfn, ntp, nfp, ntn, nfn);
    }
  }
}
