/**
 * The tagger of tag_corpus.py: a first pass over the corpus lines builds the
 * word-to-lemma index (`buildIndex`), which may be cut down to the best lemma
 * of each word (`optimizeIndex`) and exported (`dumpIndex`); a second pass
 * groups the lemmatised lines tablet by tablet (`parse`) and prints each word
 * with the lemmata it resolves to (`process`, `getLem`, `formatLems`).
 *
 * The global `INDEX` is the field `entries` of the class `Index`; the
 * value-level functions (`Indexed`, `Best`, `Tags`, `ParseOutput`, ...) are
 * the specification the methods are proved against.
 */
module TagCorpus {
  import opened Strings
  import opened Streams
  import opened Counters
  import opened Tablet
  import Context

  /** The command-line switches that change what is indexed and printed. */
  datatype Options = Options(nogloss: bool, bestlemma: bool, pf: bool, bare: bool, crf: bool)

  // ---------------------------------------------------------------------------
  // The pairs of lines both passes read

  /** `line2.startswith('#lem:')`: the text line is followed by its lemmatisation. */
  predicate Lemmatised(pair: (string, string)) {
    StartsWith(Strip(pair.1), "#lem:")
  }

  /** `Line(line1, line2)` of a lemmatised pair ends, without an exception. */
  predicate Buildable(pair: (string, string)) {
    Lemmatised(pair) ==> Parsable(Strip(pair.0), Some(Strip(pair.1)))
  }

  predicate AllBuildable(pairs: seq<(string, string)>) {
    forall i :: 0 <= i < |pairs| ==> Buildable(pairs[i])
  }

  /** The record of `Line(line1, line2)` for a lemmatised pair. */
  function PairRecord(pair: (string, string)): Record
    requires Lemmatised(pair) && Buildable(pair)
  {
    ParseLine(Strip(pair.0), Some(Strip(pair.1)))
  }

  /** Every recorded word carries at least one lemma: its token split on `|` is never empty. */
  lemma RecordLemmata(text: string, lem: Option<string>)
    requires Parsable(text, lem)
    ensures forall k :: 0 <= k < |ParseLine(text, lem).words| ==> |ParseLine(text, lem).words[k].lemmata| >= 1
  {
    var l := InitLem(lem);
    if HasLem(l) && text[0] !in Comment && '_' !in text {
      LemmatisedLineIsCleaned(text, lem);
      var c := Cleaned(text);
      var ws := Words(c);
      var lt := LemmaTokens(l.value);
      if |ws| == |lt| {
        AlignIsSelection(ws, lt, 0, false);
      }
    }
  }

  // ---------------------------------------------------------------------------
  // buildIndex

  /** How often `x` occurs in `s`. */
  function Occurrences(s: seq<string>, x: string): nat {
    if s == [] then 0 else Occurrences(s[..|s| - 1], x) + (if s[|s| - 1] == x then 1 else 0)
  }

  /** `for lem in lems: c[lem] += 1`. */
  function CountAll(c: Counter, lems: seq<string>): Counter {
    if lems == [] then c else Inc(CountAll(c, lems[..|lems| - 1]), lems[|lems| - 1], 1)
  }

  /**
   * Counting a list of lemmata adds to each lemma the number of times it is
   * listed, adds exactly the listed lemmata as keys, and repeats no key.
   */
  lemma {:induction false} CountAllCounts(c: Counter, lems: seq<string>)
    ensures forall k :: Get(CountAll(c, lems), k) == Get(c, k) + Occurrences(lems, k)
    ensures forall k :: HasKey(CountAll(c, lems), k) <==> HasKey(c, k) || k in lems
    ensures Total(CountAll(c, lems)) == Total(c) + |lems|
    ensures Distinct(c) ==> Distinct(CountAll(c, lems))
    decreases |lems|
  {
    if lems != [] {
      var front := lems[..|lems| - 1];
      CountAllCounts(c, front);
      assert lems == front + [lems[|lems| - 1]];
    }
  }

  /** The counter of `word`, empty before its first occurrence (`INDEX[word] = Counter()`). */
  function CounterOf(ix: map<string, Counter>, word: string): Counter {
    if word in ix then ix[word] else []
  }

  /** One word counted with the lemmata it is given: each listed lemma counts once more. */
  function AddOccurrence(ix: map<string, Counter>, word: string, lems: seq<string>): map<string, Counter> {
    ix[word := CountAll(CounterOf(ix, word), lems)]
  }

  /**
   * The words of a line in order, each with `line.get_lemmata(word)`: the
   * lemmata of the first entry for that word, so a word recorded twice in a
   * line counts the lemmata of its first entry twice.
   */
  function LineLemmata(ws: seq<WordEntry>): (r: seq<(string, seq<string>)>)
    ensures |r| == |ws| && forall i :: 0 <= i < |ws| ==> r[i].0 == ws[i].word
  {
    seq(|ws|, i requires 0 <= i < |ws| => (ws[i].word, LemmataOf(ws, ws[i].word).value))
  }

  /** The words with their lemmata, counted in turn. */
  function AddWords(ix: map<string, Counter>, occ: seq<(string, seq<string>)>): map<string, Counter> {
    if occ == [] then ix
    else AddOccurrence(AddWords(ix, occ[..|occ| - 1]), occ[|occ| - 1].0, occ[|occ| - 1].1)
  }

  /** How many counts of `lem` the occurrences of `w` add: the times each one's lemmata list `lem`. */
  function Gained(occ: seq<(string, seq<string>)>, w: string, lem: string): nat {
    if occ == [] then 0
    else Gained(occ[..|occ| - 1], w, lem) + (if occ[|occ| - 1].0 == w then Occurrences(occ[|occ| - 1].1, lem) else 0)
  }

  /** One occurrence of `word` adds `word` as a key and raises only its counts, each by how often its lemmata list it. */
  lemma AddOccurrenceCount(ix: map<string, Counter>, word: string, lems: seq<string>, w: string, lem: string)
    ensures w in AddOccurrence(ix, word, lems) <==> w in ix || w == word
    ensures Get(CounterOf(AddOccurrence(ix, word, lems), w), lem) ==
      Get(CounterOf(ix, w), lem) + (if w == word then Occurrences(lems, lem) else 0)
  {
    CountAllCounts(CounterOf(ix, word), lems);
  }

  /** Counting words makes exactly those words keys, besides the earlier ones. */
  lemma {:induction false} AddWordsKeys(ix: map<string, Counter>, occ: seq<(string, seq<string>)>, w: string)
    ensures w in AddWords(ix, occ) <==> w in ix || exists j :: 0 <= j < |occ| && occ[j].0 == w
    decreases |occ|
  {
    if occ != [] {
      var front := occ[..|occ| - 1];
      AddWordsKeys(ix, front, w);
      AddOccurrenceCount(AddWords(ix, front), occ[|occ| - 1].0, occ[|occ| - 1].1, w, "");
      assert forall j :: 0 <= j < |front| ==> front[j] == occ[j];
    }
  }

  /** Counting words raises the count of `lem` for `w` by exactly what the occurrences of `w` list. */
  lemma {:induction false} AddWordsCount(ix: map<string, Counter>, occ: seq<(string, seq<string>)>, w: string, lem: string)
    ensures Get(CounterOf(AddWords(ix, occ), w), lem) == Get(CounterOf(ix, w), lem) + Gained(occ, w, lem)
    decreases |occ|
  {
    if occ != [] {
      var front := occ[..|occ| - 1];
      AddWordsCount(ix, front, w, lem);
      AddOccurrenceCount(AddWords(ix, front), occ[|occ| - 1].0, occ[|occ| - 1].1, w, lem);
    }
  }

  /** Each word of a line whose entries all carry a lemma is counted with a non-empty list. */
  lemma LineLemmataNonEmpty(ws: seq<WordEntry>)
    requires forall j :: 0 <= j < |ws| ==> |ws[j].lemmata| >= 1
    ensures forall i :: 0 <= i < |ws| ==> |LineLemmata(ws)[i].1| >= 1
  {
    forall i | 0 <= i < |ws| ensures |LineLemmata(ws)[i].1| >= 1 {
      var r := LemmataOf(ws, ws[i].word);
      assert LineLemmata(ws)[i].1 == r.value;
    }
  }

  /** What `buildIndex` does with one pair: a valid lemmatised line counts its words. */
  function IndexPair(ix: map<string, Counter>, pair: (string, string)): map<string, Counter>
    requires Buildable(pair)
  {
    if Lemmatised(pair) && PairRecord(pair).valid then AddWords(ix, LineLemmata(PairRecord(pair).words))
    else ix
  }

  /** `buildIndex` over the pairs, from the index `ix`. */
  function Indexed(ix: map<string, Counter>, pairs: seq<(string, string)>): map<string, Counter>
    requires AllBuildable(pairs)
  {
    if pairs == [] then ix
    else IndexPair(Indexed(ix, pairs[..|pairs| - 1]), pairs[|pairs| - 1])
  }

  /** Every counter of the index is non-empty and repeats no key. */
  predicate Sound(ix: map<string, Counter>) {
    forall w :: w in ix ==> |ix[w]| > 0 && Distinct(ix[w])
  }

  /** Counting a line's words never removes a key nor lowers a count. */
  lemma LineMonotone(ix: map<string, Counter>, ws: seq<WordEntry>, w: string, lem: string)
    requires w in ix
    ensures w in AddWords(ix, LineLemmata(ws)) && Get(ix[w], lem) <= Get(AddWords(ix, LineLemmata(ws))[w], lem)
  {
    AddWordsKeys(ix, LineLemmata(ws), w);
    AddWordsCount(ix, LineLemmata(ws), w, lem);
  }

  /** Counting a line's words makes each of them a key. */
  lemma LineCovers(ix: map<string, Counter>, ws: seq<WordEntry>, k: nat)
    requires k < |ws|
    ensures ws[k].word in AddWords(ix, LineLemmata(ws))
  {
    AddWordsKeys(ix, LineLemmata(ws), ws[k].word);
    assert LineLemmata(ws)[k].0 == ws[k].word;
  }

  /** One pair never removes a key nor lowers a count. */
  lemma IndexPairMonotone(ix: map<string, Counter>, pair: (string, string), w: string, lem: string)
    requires Buildable(pair) && w in ix
    ensures w in IndexPair(ix, pair) && Get(ix[w], lem) <= Get(IndexPair(ix, pair)[w], lem)
  {
    if Lemmatised(pair) && PairRecord(pair).valid {
      LineMonotone(ix, PairRecord(pair).words, w, lem);
    }
  }

  /** Every word of a valid lemmatised line becomes a key. */
  lemma IndexPairCovers(ix: map<string, Counter>, pair: (string, string), k: nat)
    requires Buildable(pair) && Lemmatised(pair) && PairRecord(pair).valid && k < |PairRecord(pair).words|
    ensures PairRecord(pair).words[k].word in IndexPair(ix, pair)
  {
    LineCovers(ix, PairRecord(pair).words, k);
  }

  /** One pair keeps the index sound: every word it counts has at least one lemma. */
  lemma IndexPairSound(ix: map<string, Counter>, pair: (string, string))
    requires Buildable(pair) && Sound(ix)
    ensures Sound(IndexPair(ix, pair))
  {
    if Lemmatised(pair) && PairRecord(pair).valid {
      var ws := PairRecord(pair).words;
      RecordLemmata(Strip(pair.0), Some(Strip(pair.1)));
      LineLemmataNonEmpty(ws);
      SoundWords(ix, LineLemmata(ws));
    }
  }

  /** Counting words whose lemmata are never empty keeps the index sound. */
  lemma {:induction false} SoundWords(ix: map<string, Counter>, occ: seq<(string, seq<string>)>)
    requires Sound(ix)
    requires forall j :: 0 <= j < |occ| ==> |occ[j].1| >= 1
    ensures Sound(AddWords(ix, occ))
    decreases |occ|
  {
    if occ != [] {
      var front := occ[..|occ| - 1];
      assert forall j :: 0 <= j < |front| ==> front[j] == occ[j];
      SoundWords(ix, front);
      SoundOccurrence(AddWords(ix, front), occ[|occ| - 1].0, occ[|occ| - 1].1);
    }
  }

  /** Counting a non-empty list of lemmata for one word keeps the index sound. */
  lemma SoundOccurrence(ix: map<string, Counter>, word: string, lems: seq<string>)
    requires Sound(ix) && |lems| >= 1
    ensures Sound(AddOccurrence(ix, word, lems))
  {
    CountAllCounts(CounterOf(ix, word), lems);
    assert HasKey(CountAll(CounterOf(ix, word), lems), lems[0]);
  }

  /** `buildIndex` never removes a key nor lowers a count. */
  lemma {:induction false} IndexedMonotone(ix: map<string, Counter>, pairs: seq<(string, string)>, w: string, lem: string)
    requires AllBuildable(pairs) && w in ix
    ensures w in Indexed(ix, pairs) && Get(ix[w], lem) <= Get(Indexed(ix, pairs)[w], lem)
    decreases |pairs|
  {
    if pairs != [] {
      var front := pairs[..|pairs| - 1];
      assert AllBuildable(front);
      IndexedMonotone(ix, front, w, lem);
      IndexPairMonotone(Indexed(ix, front), pairs[|pairs| - 1], w, lem);
    }
  }

  /** After `buildIndex`, every word of every valid lemmatised line is a key. */
  lemma {:induction false} IndexedCovers(ix: map<string, Counter>, pairs: seq<(string, string)>, i: nat, k: nat)
    requires AllBuildable(pairs) && i < |pairs|
    requires Lemmatised(pairs[i]) && PairRecord(pairs[i]).valid && k < |PairRecord(pairs[i]).words|
    ensures PairRecord(pairs[i]).words[k].word in Indexed(ix, pairs)
    decreases |pairs|
  {
    var front := pairs[..|pairs| - 1];
    assert AllBuildable(front);
    if i == |pairs| - 1 {
      IndexPairCovers(Indexed(ix, front), pairs[i], k);
    } else {
      assert pairs[i] == front[i];
      IndexedCovers(ix, front, i, k);
      IndexPairMonotone(Indexed(ix, front), pairs[|pairs| - 1], PairRecord(pairs[i]).words[k].word, "");
    }
  }

  /** `buildIndex` keeps every counter non-empty and free of repeated keys. */
  lemma {:induction false} IndexedSound(ix: map<string, Counter>, pairs: seq<(string, string)>)
    requires AllBuildable(pairs) && Sound(ix)
    ensures Sound(Indexed(ix, pairs))
    decreases |pairs|
  {
    if pairs != [] {
      var front := pairs[..|pairs| - 1];
      assert AllBuildable(front);
      IndexedSound(ix, front);
      IndexPairSound(Indexed(ix, front), pairs[|pairs| - 1]);
    }
  }

  /** The index after one more pair. */
  lemma IndexedSnoc(ix: map<string, Counter>, pairs: seq<(string, string)>, i: nat)
    requires i < |pairs| && AllBuildable(pairs)
    ensures AllBuildable(pairs[..i]) && AllBuildable(pairs[..i + 1])
    ensures Indexed(ix, pairs[..i + 1]) == IndexPair(Indexed(ix, pairs[..i]), pairs[i])
  {
    TakeSnoc(pairs, i);
  }

  /** Giving a key a first value and then another is giving it the second. */
  lemma Override(m: map<string, Counter>, k: string, v: Counter)
    ensures (if k in m then m else m[k := []])[k := v] == m[k := v]
  {
  }

  // ---------------------------------------------------------------------------
  // optimizeIndex

  /** Every counter of the index has at least one entry, so `most_common(1)[0]` exists. */
  predicate Filled(ix: map<string, Counter>) {
    forall w :: w in ix ==> |ix[w]| > 0
  }

  /** `optimizeIndex` with `--bestlemma`: each counter cut down to its most common entry. */
  function Best(ix: map<string, Counter>): (r: map<string, Counter>)
    requires Filled(ix)
    ensures r.Keys == ix.Keys
  {
    map w | w in ix :: [MostCommon(ix[w]).value]
  }

  /**
   * After optimisation each word keeps exactly one lemma, one it was seen
   * with, with its full count, and no lemma of the word was seen more often.
   */
  lemma BestIsMax(ix: map<string, Counter>, w: string, k: string)
    requires Sound(ix) && w in ix
    ensures |Best(ix)[w]| == 1
    ensures HasKey(ix[w], Best(ix)[w][0].0) && Best(ix)[w][0].1 == Get(ix[w], Best(ix)[w][0].0)
    ensures HasKey(ix[w], k) ==> Get(ix[w], k) <= Best(ix)[w][0].1
  {
    MostCommonIsMax(ix[w], k);
  }

  /** Optimising keeps the index sound, and optimising twice changes nothing more. */
  lemma BestIdempotent(ix: map<string, Counter>)
    requires Filled(ix)
    ensures Sound(Best(ix)) && Best(Best(ix)) == Best(ix)
  {
    var b := Best(ix);
    forall w | w in b ensures MostCommon(b[w]) == Some(b[w][0]) {
      var m := MostCommon(b[w]).value;
      assert b[w][0] == m;
    }
  }

  /** Midway through `optimizeIndex`: the words still to visit are untouched, the others cut to their best entry. */
  ghost predicate Optimizing(start: map<string, Counter>, ix: map<string, Counter>, todo: set<string>) {
    && todo <= start.Keys && ix.Keys == start.Keys
    && (forall w :: w in todo ==> ix[w] == start[w])
    && (forall w :: w in start && w !in todo ==> |start[w]| > 0 && ix[w] == [MostCommon(start[w]).value])
  }

  lemma OptimizeStep(start: map<string, Counter>, ix: map<string, Counter>, todo: set<string>, word: string)
    requires Optimizing(start, ix, todo) && word in todo && |ix[word]| > 0
    ensures Optimizing(start, ix[word := Inc([], MostCommon(ix[word]).value.0, MostCommon(ix[word]).value.1)], todo - {word})
  {
    var m := MostCommon(ix[word]).value;
    assert Inc([], m.0, m.1) == [m];
  }

  lemma OptimizeDone(start: map<string, Counter>, ix: map<string, Counter>)
    requires Optimizing(start, ix, {})
    ensures Filled(start) && ix == Best(start)
  {
  }

  // ---------------------------------------------------------------------------
  // dumpIndex

  /** `'[' in key or ']' in key`: the lemma carries a translation gloss, such as `aga'us[soldier]`. */
  predicate Glossed(key: string) {
    '[' in key || ']' in key
  }

  /** The tag a lemma is dumped under: glossed lemmata all become `W`. */
  function TagOf(key: string): (r: string)
    ensures !Glossed(r)
  {
    if Glossed(key) then "W" else key
  }

  /** The `tags` counter `dumpIndex` builds from one word's lemmata. */
  function Tags(c: Counter): Counter {
    if c == [] then [] else Inc(Tags(c[..|c| - 1]), TagOf(c[|c| - 1].0), c[|c| - 1].1)
  }

  /** The sum of the counts of the glossed lemmata. */
  function GlossedTotal(c: Counter): int {
    if c == [] then 0 else GlossedTotal(c[..|c| - 1]) + (if Glossed(c[|c| - 1].0) then c[|c| - 1].1 else 0)
  }

  lemma DistinctFront(c: Counter)
    requires Distinct(c) && c != []
    ensures Distinct(c[..|c| - 1]) && c == c[..|c| - 1] + [c[|c| - 1]]
  {
  }

  /**
   * Dumping keeps every unglossed lemma's count, gathers the counts of all
   * glossed lemmata under `W` (together with a lemma literally named `W`),
   * lists no glossed key and no key twice, and keeps the total.
   */
  lemma {:induction false} TagsCounts(c: Counter, k: string)
    requires Distinct(c)
    ensures Get(Tags(c), k) == if k == "W" then Get(c, "W") + GlossedTotal(c) else if Glossed(k) then 0 else Get(c, k)
    ensures Total(Tags(c)) == Total(c)
    ensures HasKey(Tags(c), k) ==> !Glossed(k)
    ensures Distinct(Tags(c))
    decreases |c|
  {
    if c != [] {
      var front := c[..|c| - 1];
      var e := c[|c| - 1];
      DistinctFront(c);
      TagsCounts(front, k);
      GetSnoc(front, e, k);
      TotalSnoc(front, e);
    }
  }

  /** The line `dumpIndex` writes for one word: `\t"<word>": <repr of dict(tags)>,`. */
  function DumpLine(word: string, c: Counter): string {
    "\t\"" + word + "\": " + DictRepr(Tags(c)) + ",\n"
  }

  /** `repr` of a dictionary of string keys and integer counts, in the counter's order. */
  function DictRepr(c: Counter): string {
    "{" + Join(seq(|c|, i requires 0 <= i < |c| => "'" + c[i].0 + "': " + IntToString(c[i].1)), ", ") + "}"
  }

  /** The lines for the given words, in order. */
  function DumpLines(ix: map<string, Counter>, words: seq<string>): (r: seq<string>)
    requires forall i :: 0 <= i < |words| ==> words[i] in ix
    ensures |r| == |words|
  {
    seq(|words|, i requires 0 <= i < |words| => DumpLine(words[i], ix[words[i]]))
  }

  lemma DumpLinesSnoc(ix: map<string, Counter>, words: seq<string>, i: nat)
    requires forall k :: 0 <= k < |words| ==> words[k] in ix
    requires i < |words|
    ensures DumpLines(ix, words[..i + 1]) == DumpLines(ix, words[..i]) + [DumpLine(words[i], ix[words[i]])]
  {
    var longer, shorter := DumpLines(ix, words[..i + 1]), DumpLines(ix, words[..i]);
    var last := DumpLine(words[i], ix[words[i]]);
    forall k | 0 <= k < i
      ensures longer[k] == shorter[k]
    {
      assert words[..i + 1][k] == words[..i][k];
    }
    assert longer[i] == last;
    assert longer == shorter + [last];
  }

  /** In strictly increasing byte order: what `sorted` gives for distinct keys. */
  predicate Ascending(s: seq<string>) {
    forall i, j :: 0 <= i < j < |s| ==> LexLt(s[i], s[j])
  }

  /** `sorted(keys)`: each key once, in increasing byte order. */
  method SortedKeys(keys: set<string>) returns (r: seq<string>)
    ensures Ascending(r) && |r| == |keys|
    ensures forall x :: x in r <==> x in keys
  {
    r := [];
    var todo := keys;
    while todo != {}
      invariant forall x :: x in keys <==> x in r || x in todo
      invariant forall x :: x in r ==> x !in todo
      invariant Ascending(r) && |r| + |todo| == |keys|
      invariant forall i, x :: 0 <= i < |r| && x in todo ==> LexLt(r[i], x)
      decreases |todo|
    {
      ghost var least := LeastExists(todo);
      var w :| w in todo && forall x :: x in todo ==> LexLe(w, x);
      r := r + [w];
      todo := todo - {w};
    }
  }

  /** The inner loop of `dumpIndex`: `tags['W' or key] += lemmata[key]` for each lemma. */
  method CountTags(lemmata: Counter) returns (tags: Counter)
    ensures tags == Tags(lemmata)
  {
    tags := [];
    for i := 0 to |lemmata|
      invariant tags == Tags(lemmata[..i])
    {
      var key := lemmata[i].0;
      if '[' in key || ']' in key {
        tags := Inc(tags, "W", lemmata[i].1);
      } else {
        tags := Inc(tags, key, lemmata[i].1);
      }
      TakeSnoc(lemmata, i);
    }
    TakeAll(lemmata);
  }

  // ---------------------------------------------------------------------------
  // formatLems and getLem

  /** `'[' in lem and ']' in lem`: the lemmata `formatLems` may rewrite. */
  predicate Bracketed(lem: string) {
    '[' in lem && ']' in lem
  }

  /**
   * The printed form of one lemma. Only a bracketed lemma changes: under
   * `--nogloss` it always becomes `W` (even a profession), otherwise under
   * `--pf` a listed profession becomes `PF`.
   */
  function FormatLem(lem: string, o: Options, professions: seq<string>): (r: string)
    ensures r == lem || r == "W" || r == "PF"
    ensures !Bracketed(lem) ==> r == lem
    ensures o.nogloss ==> !Bracketed(r)
    ensures r != lem ==> Bracketed(lem) && (r == "PF" <==> o.pf && !o.nogloss && lem in professions)
  {
    if !Bracketed(lem) then lem
    else if o.nogloss then "W"
    else if o.pf && lem in professions then "PF"
    else lem
  }

  /** Every lemma of the list in its printed form. */
  function Formatted(lems: seq<string>, o: Options, professions: seq<string>): (r: seq<string>)
    ensures |r| == |lems|
  {
    seq(|lems|, i requires 0 <= i < |lems| => FormatLem(lems[i], o, professions))
  }

  /**
   * The printed lemma field splits back on `,` into one field per lemma, each
   * the printed form of that lemma, when no lemma holds a comma.
   */
  lemma FormatLemsFields(lems: seq<string>, o: Options, professions: seq<string>)
    requires |lems| >= 1 && forall i :: 0 <= i < |lems| ==> ',' !in lems[i]
    ensures Split(Join(Formatted(lems, o, professions), ","), ',') == Formatted(lems, o, professions)
  {
    var f := Formatted(lems, o, professions);
    forall i | 0 <= i < |f| ensures ',' !in f[i] {
      assert f[i] == FormatLem(lems[i], o, professions);
    }
    SplitJoin(f, ',');
  }

  /** `formatLems`: the printed forms joined with `,`. */
  method FormatLems(lems: seq<string>, o: Options, professions: seq<string>) returns (s: string)
    ensures s == Join(Formatted(lems, o, professions), ",")
  {
    var f: seq<string> := [];
    for i := 0 to |lems|
      invariant f == Formatted(lems[..i], o, professions)
    {
      var lem := lems[i];
      if '[' in lem && ']' in lem {
        if o.pf {
          if lem in professions {
            lem := "PF";
          }
        }
        if o.nogloss {
          lem := "W";
        }
      }
      f := f + [lem];
    }
    assert lems[..|lems|] == lems;
    s := Join(f, ",");
  }

  /** What `getLem` relies on for a known word: it occurs in the line, and under `--bestlemma` its counter has a most common lemma. */
  predicate Resolvable(ix: map<string, Counter>, ws: seq<WordEntry>, word: string, bestlemma: bool) {
    word in ix ==> LemmataOf(ws, word).Some? && (bestlemma ==> |ix[word]| > 0)
  }

  /** The lemmata `getLem` prints for `word` in a line with entries `ws`. */
  function Chosen(ix: map<string, Counter>, ws: seq<WordEntry>, word: string, bestlemma: bool): seq<string>
    requires Resolvable(ix, ws, word, bestlemma)
  {
    if word !in ix then ["X"]
    else
      var lems := LemmataOf(ws, word).value;
      if |lems| > 1 then (if bestlemma then [MostCommon(ix[word]).value.0] else Keys(ix[word]))
      else lems
  }

  /**
   * A word never lemmatised in the corpus is tagged `X`; a word with one
   * lemma in this line keeps it; an ambiguous word shows, under
   * `--bestlemma`, one lemma seen with it no less often than any other, and
   * otherwise every lemma it was seen with, each once.
   */
  lemma ChosenMeaning(ix: map<string, Counter>, ws: seq<WordEntry>, word: string, bestlemma: bool, k: string)
    requires Sound(ix) && Resolvable(ix, ws, word, bestlemma)
    ensures var r := Chosen(ix, ws, word, bestlemma);
      word !in ix ==> r == ["X"]
    ensures word in ix && |LemmataOf(ws, word).value| <= 1 ==> Chosen(ix, ws, word, bestlemma) == LemmataOf(ws, word).value
    ensures word in ix && |LemmataOf(ws, word).value| > 1 && bestlemma ==>
      |Chosen(ix, ws, word, bestlemma)| == 1 && HasKey(ix[word], Chosen(ix, ws, word, bestlemma)[0]) &&
      (HasKey(ix[word], k) ==> Get(ix[word], k) <= Get(ix[word], Chosen(ix, ws, word, bestlemma)[0]))
    ensures word in ix && |LemmataOf(ws, word).value| > 1 && !bestlemma ==>
      (k in Chosen(ix, ws, word, bestlemma) <==> HasKey(ix[word], k)) &&
      forall i, j :: 0 <= i < j < |Chosen(ix, ws, word, bestlemma)| ==> Chosen(ix, ws, word, bestlemma)[i] != Chosen(ix, ws, word, bestlemma)[j]
  {
    if word in ix && |LemmataOf(ws, word).value| > 1 {
      var c := ix[word];
      if bestlemma {
        MostCommonIsMax(c, k);
      } else {
        var r := Keys(c);
        if k in r {
          var i :| 0 <= i < |r| && r[i] == k;
          assert c[i].0 == k;
        }
        if HasKey(c, k) {
          var i :| 0 <= i < |c| && c[i].0 == k;
          assert r[i] == k;
        }
      }
    }
  }

  /** The lemma field `getLem` returns. */
  function LemText(ix: map<string, Counter>, ws: seq<WordEntry>, word: string, o: Options, professions: seq<string>): string
    requires Resolvable(ix, ws, word, o.bestlemma)
  {
    Join(Formatted(Chosen(ix, ws, word, o.bestlemma), o, professions), ",")
  }

  // ---------------------------------------------------------------------------
  // process

  /** The `damaged` attribute of the `<l>` tag. */
  function DamageAttr(r: Record): string {
    if !r.damaged then "False" else if r.damagedAndTagged then "recoverable" else "unrecoverable"
  }

  /**
   * A line is `recoverable` when some word is damaged and no damaged word is
   * tagged `u`, `unrecoverable` when a damaged word is tagged `u`, and
   * `False` when no word is damaged (or the line is not valid).
   */
  lemma DamageAttrMeaning(text: string, lem: Option<string>)
    requires Parsable(text, lem)
    ensures var r := ParseLine(text, lem);
      DamageAttr(r) == "recoverable" <==> r.valid && DamagedAndTagged(r.words)
    ensures var r := ParseLine(text, lem);
      DamageAttr(r) == "unrecoverable" <==> r.valid && AnyDamaged(r.words) && !DamagedAndTagged(r.words)
    ensures var r := ParseLine(text, lem);
      DamageAttr(r) == "False" <==> !(r.valid && AnyDamaged(r.words))
  {
    DamageFlags(text, lem);
  }

  /** The columns `printWord` writes for word number `index`: the word, the CRF features under `--crf`, and the lemma field. */
  function WordRow(ix: map<string, Counter>, ws: seq<WordEntry>, text: string, index: nat, o: Options,
                   professions: seq<string>, spelling: seq<(string, int)>): seq<string>
    requires index < |ws| && Filled(ix)
  {
    var word := ws[index].word;
    assert LemmataOf(ws, word).Some?;
    [word]
    + (if o.crf then Context.Row(ws, text, index, word, o.nogloss, professions, spelling) else [])
    + ["\t" + LemText(ix, ws, word, o, professions) + "\n"]
  }

  /** The rows of all words of a line, in order. */
  function Rows(ix: map<string, Counter>, r: Record, o: Options, professions: seq<string>,
                spelling: seq<(string, int)>): (rows: seq<seq<string>>)
    requires Filled(ix)
    ensures |rows| == |r.words|
  {
    seq(|r.words|, i requires 0 <= i < |r.words| => WordRow(ix, r.words, r.line, i, o, professions, spelling))
  }

  /** Rows written one after the other. */
  function Flat(rows: seq<seq<string>>): seq<string> {
    if rows == [] then [] else Flat(rows[..|rows| - 1]) + rows[|rows| - 1]
  }

  lemma {:induction false} FlatWidth(rows: seq<seq<string>>, width: nat)
    requires forall i :: 0 <= i < |rows| ==> |rows[i]| == width
    ensures |Flat(rows)| == |rows| * width
    decreases |rows|
  {
    if rows != [] {
      FlatWidth(rows[..|rows| - 1], width);
      MulStep(|rows| - 1, width);
    }
  }

  /** Everything `process` writes for one line: nothing for a comment or directive, else the rows between `<l>` tags (left out under `--bare`). */
  function Processed(ix: map<string, Counter>, r: Record, o: Options, professions: seq<string>,
                     spelling: seq<(string, int)>): seq<string>
    requires Filled(ix)
  {
    if !HasLem(r.lem) then []
    else
      (if o.bare then [] else ["<l damaged=\"" + DamageAttr(r) + "\">\n"])
      + Flat(Rows(ix, r, o, professions, spelling))
      + (if o.bare then [] else ["</l>\n"])
  }

  /** The number of columns of one word's row. */
  function RowWidth(o: Options, spelling: seq<(string, int)>): nat {
    2 + (if o.crf then 37 + |spelling| else 0)
  }

  lemma WordRowWidth(ix: map<string, Counter>, ws: seq<WordEntry>, text: string, index: nat, o: Options,
                     professions: seq<string>, spelling: seq<(string, int)>)
    requires index < |ws| && Filled(ix)
    ensures |WordRow(ix, ws, text, index, o, professions, spelling)| == RowWidth(o, spelling)
    ensures WordRow(ix, ws, text, index, o, professions, spelling)[0] == ws[index].word
  {
    var word := ws[index].word;
    assert LemmataOf(ws, word).Some?;
    Context.RowMatchesHeader(ws, text, index, word, o.nogloss, professions, spelling);
  }

  // Sequence bookkeeping for consecutive writes; no behaviour of the scripts is modelled here.

  /** Three writes one after the other put down the three parts in order. */
  lemma Assemble(start: seq<string>, x: seq<string>, y: seq<string>, z: seq<string>,
                 afterX: seq<string>, afterY: seq<string>, afterZ: seq<string>, whole: seq<string>)
    requires afterX == start + x && afterY == afterX + y && afterZ == afterY + z && whole == x + y + z
    ensures afterZ == start + whole
  {
  }

  lemma MulStep(n: nat, m: nat)
    ensures (n + 1) * m == n * m + m
  {
  }

  /**
   * `process` writes nothing for a line without a lemma; otherwise one row
   * of `RowWidth` columns per word, framed by the `<l>` tag with the line's
   * damage attribute and `</l>` unless `--bare`.
   */
  lemma ProcessedShape(ix: map<string, Counter>, r: Record, o: Options, professions: seq<string>,
                       spelling: seq<(string, int)>)
    requires Filled(ix)
    ensures !HasLem(r.lem) ==> Processed(ix, r, o, professions, spelling) == []
    ensures HasLem(r.lem) ==>
      |Processed(ix, r, o, professions, spelling)| == (if o.bare then 0 else 2) + |r.words| * RowWidth(o, spelling)
    ensures HasLem(r.lem) && !o.bare ==>
      Processed(ix, r, o, professions, spelling)[0] == "<l damaged=\"" + DamageAttr(r) + "\">\n" &&
      Processed(ix, r, o, professions, spelling)[|Processed(ix, r, o, professions, spelling)| - 1] == "</l>\n"
  {
    var rows := Rows(ix, r, o, professions, spelling);
    forall i | 0 <= i < |rows| ensures |rows[i]| == RowWidth(o, spelling) {
      WordRowWidth(ix, r.words, r.line, i, o, professions, spelling);
    }
    FlatWidth(rows, RowWidth(o, spelling));
  }

  // ---------------------------------------------------------------------------
  // parse

  /** `line1[0]` exists: the stripped text line is not empty (the source raises `IndexError` otherwise). */
  predicate Readable(pair: (string, string)) {
    Strip(pair.0) != ""
  }

  /** Both passes get through every pair without an exception. */
  predicate Parseable(pairs: seq<(string, string)>) {
    AllBuildable(pairs) && forall i :: 0 <= i < |pairs| ==> Readable(pairs[i])
  }

  /** `parse` accumulates the line of this pair: a text line, not a comment or directive, followed by its lemmatisation. */
  predicate Kept(pair: (string, string))
    requires Readable(pair)
  {
    Strip(pair.0)[0] !in Comment && Lemmatised(pair)
  }

  /** The pair ends a tablet: the next line opens a new one with `&`. */
  predicate Closes(pair: (string, string)) {
    StartsWith(Strip(pair.1), "&")
  }

  /** The accumulated lines `parse` has handed to `process`, tablet by tablet, and those it still holds. */
  datatype Batches = Batches(flushed: seq<seq<Record>>, pending: seq<Record>)

  lemma ParseablePrefix(pairs: seq<(string, string)>, i: nat)
    requires Parseable(pairs) && i <= |pairs|
    ensures Parseable(pairs[..i])
  {
    assert forall j :: 0 <= j < i ==> pairs[..i][j] == pairs[j];
  }

  /** The record of a pair `parse` keeps, as a list of zero or one records. */
  function KeptRecord(pair: (string, string)): seq<Record>
    requires Readable(pair) && Buildable(pair)
  {
    if Kept(pair) then [PairRecord(pair)] else []
  }

  /** What each pair adds to the accumulated lines. */
  function KeptRecords(pairs: seq<(string, string)>): (r: seq<seq<Record>>)
    requires Parseable(pairs)
    ensures |r| == |pairs|
  {
    seq(|pairs|, i requires 0 <= i < |pairs| => KeptRecord(pairs[i]))
  }

  /** `parse`'s accumulation over the pairs, where pair `i` adds `kept[i]`. */
  function Accumulated(pairs: seq<(string, string)>, kept: seq<seq<Record>>): Batches
    requires |kept| == |pairs|
  {
    if pairs == [] then Batches([], [])
    else
      var b := Accumulated(pairs[..|pairs| - 1], kept[..|kept| - 1]);
      var pending := b.pending + kept[|kept| - 1];
      if Closes(pairs[|pairs| - 1]) then Batches(b.flushed + [pending], []) else Batches(b.flushed, pending)
  }

  /** How many pairs close a tablet. */
  function Closings(pairs: seq<(string, string)>): nat {
    if pairs == [] then 0 else Closings(pairs[..|pairs| - 1]) + (if Closes(pairs[|pairs| - 1]) then 1 else 0)
  }

  /** The batches one after the other. */
  function Joined(bs: seq<seq<Record>>): seq<Record> {
    if bs == [] then [] else Joined(bs[..|bs| - 1]) + bs[|bs| - 1]
  }

  /**
   * Every kept line is processed exactly once and in order: the flushed
   * batches followed by the pending lines are all the kept records.
   */
  lemma {:induction false} AccumulatedCovers(pairs: seq<(string, string)>, kept: seq<seq<Record>>)
    requires |kept| == |pairs|
    ensures Joined(Accumulated(pairs, kept).flushed) + Accumulated(pairs, kept).pending == Joined(kept)
    decreases |pairs|
  {
    if pairs != [] {
      var b := Accumulated(pairs[..|pairs| - 1], kept[..|kept| - 1]);
      AccumulatedCovers(pairs[..|pairs| - 1], kept[..|kept| - 1]);
      var last := kept[|kept| - 1];
      if Closes(pairs[|pairs| - 1]) {
        assert Joined(b.flushed + [b.pending + last]) == Joined(b.flushed) + (b.pending + last);
      } else {
        assert Joined(kept) == Joined(kept[..|kept| - 1]) + last;
      }
    }
  }

  /** There is one batch per closing pair. */
  lemma {:induction false} AccumulatedBatches(pairs: seq<(string, string)>, kept: seq<seq<Record>>)
    requires |kept| == |pairs|
    ensures |Accumulated(pairs, kept).flushed| == Closings(pairs)
    decreases |pairs|
  {
    if pairs != [] {
      AccumulatedBatches(pairs[..|pairs| - 1], kept[..|kept| - 1]);
    }
  }

  /** Nothing is pending right after a closing pair. */
  lemma AccumulatedClosed(pairs: seq<(string, string)>, kept: seq<seq<Record>>)
    requires |kept| == |pairs| && pairs != [] && Closes(pairs[|pairs| - 1])
    ensures Accumulated(pairs, kept).pending == []
  {
  }

  /** One more pair for `parse`, from the batches so far and the pending records with the pair's own. */
  lemma AccumulatedStep(pairs: seq<(string, string)>, kept: seq<seq<Record>>, i: nat,
                        flushed: seq<seq<Record>>, pending: seq<Record>)
    requires |kept| == |pairs| && i < |pairs|
    requires flushed == Accumulated(pairs[..i], kept[..i]).flushed
    requires pending == Accumulated(pairs[..i], kept[..i]).pending + kept[i]
    ensures Accumulated(pairs[..i + 1], kept[..i + 1]) ==
      if Closes(pairs[i]) then Batches(flushed + [pending], []) else Batches(flushed, pending)
  {
    TakeSnoc(pairs, i);
    TakeSnoc(kept, i);
  }

  /** `process` on each record in turn. */
  function ProcessAll(ix: map<string, Counter>, rs: seq<Record>, o: Options, professions: seq<string>,
                      spelling: seq<(string, int)>): seq<string>
    requires Filled(ix)
  {
    if rs == [] then []
    else ProcessAll(ix, rs[..|rs| - 1], o, professions, spelling) + Processed(ix, rs[|rs| - 1], o, professions, spelling)
  }

  lemma ProcessAllSnoc(ix: map<string, Counter>, ls: seq<Line>, j: nat, o: Options, professions: seq<string>,
                       spelling: seq<(string, int)>)
    requires Filled(ix) && j < |ls|
    ensures ProcessAll(ix, Records(ls[..j + 1]), o, professions, spelling) ==
      ProcessAll(ix, Records(ls[..j]), o, professions, spelling) + Processed(ix, ls[j].AsRecord(), o, professions, spelling)
  {
    TakeSnoc(ls, j);
    RecordsSnoc(ls[..j], ls[j]);
    SnocParts(Records(ls[..j]), ls[j].AsRecord());
  }

  /** Each flushed batch: an empty line, then its lines processed. */
  function Tablets(ix: map<string, Counter>, bs: seq<seq<Record>>, o: Options, professions: seq<string>,
                   spelling: seq<(string, int)>): seq<string>
    requires Filled(ix)
  {
    if bs == [] then []
    else Tablets(ix, bs[..|bs| - 1], o, professions, spelling) + ["\n"] + ProcessAll(ix, bs[|bs| - 1], o, professions, spelling)
  }

  /** Everything `parse` writes: the CRF header under `--crf`, each tablet, then any unfinished trailing tablet. */
  function ParseOutput(ix: map<string, Counter>, pairs: seq<(string, string)>, o: Options, professions: seq<string>,
                       spelling: seq<(string, int)>): seq<string>
    requires Filled(ix) && Parseable(pairs)
  {
    var b := Accumulated(pairs, KeptRecords(pairs));
    (if o.crf then Context.Header(spelling) else [])
    + Tablets(ix, b.flushed, o, professions, spelling)
    + Trailing(ix, b.pending, o, professions, spelling)
  }

  lemma ParseOutputParts(ix: map<string, Counter>, pairs: seq<(string, string)>, o: Options, professions: seq<string>,
                         spelling: seq<(string, int)>, header: seq<string>, tablets: seq<string>, tail: seq<string>)
    requires Filled(ix) && Parseable(pairs)
    requires header == if o.crf then Context.Header(spelling) else []
    requires tablets == Tablets(ix, Accumulated(pairs, KeptRecords(pairs)).flushed, o, professions, spelling)
    requires tail == Trailing(ix, Accumulated(pairs, KeptRecords(pairs)).pending, o, professions, spelling)
    ensures ParseOutput(ix, pairs, o, professions, spelling) == header + tablets + tail
  {
  }

  /** The unfinished last tablet, if any lines remain: an empty line, then those lines processed. */
  function Trailing(ix: map<string, Counter>, pending: seq<Record>, o: Options, professions: seq<string>,
                    spelling: seq<(string, int)>): seq<string>
    requires Filled(ix)
  {
    if |pending| > 0 then ["\n"] + ProcessAll(ix, pending, o, professions, spelling) else []
  }

  /** The records of the accumulated `Line` objects. */
  function Records(ls: seq<Line>): (r: seq<Record>)
    reads ls
    ensures |r| == |ls|
  {
    if ls == [] then [] else Records(ls[..|ls| - 1]) + [ls[|ls| - 1].AsRecord()]
  }

  lemma RecordsSnoc(ls: seq<Line>, l: Line)
    ensures Records(ls + [l]) == Records(ls) + [l.AsRecord()]
  {
    assert (ls + [l])[..|ls|] == ls;
  }

  /** The accumulation step of `parse` on one pair: `lines.append(Line(line1, line2))` for a kept pair. */
  method Accumulate(pair: (string, string), batch: seq<Line>) returns (r: seq<Line>)
    requires Readable(pair) && Buildable(pair)
    ensures Records(r) == Records(batch) + KeptRecord(pair)
  {
    r := batch;
    var line1 := Strip(pair.0);
    var line2 := Strip(pair.1);
    assert line1[0] !in "&#$@" <==> line1[0] !in Comment;
    if line1[0] !in "&#$@" {
      if StartsWith(line2, "#lem:") {
        var line := new Line(line1, Some(line2));
        r := batch + [line];
        RecordsSnoc(batch, line);
      }
    }
  }

  // ---------------------------------------------------------------------------
  // The index object

  class Index {
    /** `INDEX`: each word with the counts of the lemmata it was seen with. */
    var entries: map<string, Counter>

    constructor()
      ensures entries == map[]
    {
      entries := map[];
    }

    /** `buildIndex`: counts the lemmata of every word of every valid lemmatised line. */
    method BuildIndex(lines: seq<string>)
      requires AllBuildable(Pairwise(lines))
      modifies this
      ensures entries == Indexed(old(entries), Pairwise(lines))
    {
      var pairs := Pairwise(lines);
      for i := 0 to |pairs|
        invariant entries == Indexed(old(entries), pairs[..i])
      {
        IndexedSnoc(old(entries), pairs, i);
        IndexLine(pairs[i]);
      }
      TakeAll(pairs);
    }

    /** The body of `buildIndex`'s loop, on one pair. */
    method IndexLine(pair: (string, string))
      requires Buildable(pair)
      modifies this
      ensures entries == IndexPair(old(entries), pair)
    {
      var line1 := Strip(pair.0);
      var line2 := Strip(pair.1);
      if StartsWith(line2, "#lem:") {
        var line := new Line(line1, Some(line2));
        if line.valid {
          IndexWords(line.words);
        }
      }
    }

    /** `for (word, _) in line.words: ... for lem in line.get_lemmata(word): INDEX[word][lem] += 1`. */
    method IndexWords(ws: seq<WordEntry>)
      modifies this
      ensures entries == AddWords(old(entries), LineLemmata(ws))
    {
      ghost var occ := LineLemmata(ws);
      for k := 0 to |ws|
        invariant entries == AddWords(old(entries), occ[..k])
      {
        var word := ws[k].word;
        ghost var before := entries;
        if word !in entries {
          entries := entries[word := []];
        }
        assert entries[word] == CounterOf(before, word);
        var lems := LemmataOf(ws, word).value;
        CountLemmata(word, lems);
        Override(before, word, CountAll(CounterOf(before, word), lems));
        TakeSnoc(occ, k);
        assert occ[k] == (word, lems);
      }
      TakeAll(occ);
    }

    /**
     * `optimizeIndex`: with `--bestlemma`, keeps only the most common lemma of
     * each word. It fails (the source raises `IndexError`) exactly when some
     * counter is empty; without `--bestlemma` nothing changes.
     */
    method OptimizeIndex(bestlemma: bool) returns (ok: bool)
      modifies this
      ensures ok <==> !bestlemma || Filled(old(entries))
      ensures ok && bestlemma ==> entries == Best(old(entries))
      ensures !bestlemma ==> entries == old(entries)
    {
      ok := true;
      if !bestlemma {
        return;
      }
      ghost var start := entries;
      var todo := entries.Keys;
      while todo != {}
        invariant Optimizing(start, entries, todo)
        decreases |todo|
      {
        var word :| word in todo;
        var best := MostCommon(entries[word]);
        if best.None? {
          ok := false;
          return;
        }
        OptimizeStep(start, entries, todo, word);
        entries := entries[word := Inc([], best.value.0, best.value.1)];
        todo := todo - {word};
      }
      OptimizeDone(start, entries);
    }

    /** `dumpIndex`: one line per word in sorted order, between braces; returns the order used. */
    method DumpIndex(out: Writer) returns (keys: seq<string>)
      modifies out
      ensures Ascending(keys) && forall w :: w in keys <==> w in entries
      ensures out.written == old(out.written) + ["{\n"] + DumpLines(entries, keys) + ["}\n"]
    {
      keys := SortedKeys(entries.Keys);
      assert forall k :: 0 <= k < |keys| ==> keys[k] in entries by {
        forall k | 0 <= k < |keys| ensures keys[k] in entries {
          assert keys[k] in keys;
        }
      }
      out.Write("{\n");
      for i := 0 to |keys|
        invariant out.written == old(out.written) + ["{\n"] + DumpLines(entries, keys[..i])
      {
        var word := keys[i];
        var tags := CountTags(entries[word]);
        out.Write("\t\"" + word + "\": " + DictRepr(tags) + ",\n");
        DumpLinesSnoc(entries, keys, i);
      }
      TakeAll(keys);
      out.Write("}\n");
    }

    /** `getLem`: the lemma field of `word` in a line with entries `ws`. */
    method GetLem(ws: seq<WordEntry>, word: string, o: Options, professions: seq<string>) returns (s: string)
      requires Resolvable(entries, ws, word, o.bestlemma)
      ensures s == LemText(entries, ws, word, o, professions)
    {
      var lems: seq<string>;
      if word !in entries {
        lems := ["X"];
      } else {
        lems := LemmataOf(ws, word).value;
        if |lems| > 1 {
          if o.bestlemma {
            lems := [MostCommon(entries[word]).value.0];
          } else {
            lems := Keys(entries[word]);
          }
        }
      }
      s := FormatLems(lems, o, professions);
    }

    /** `printWord`: the word, its CRF features under `--crf`, then its lemma field. */
    method PrintWord(out: Writer, line: Line, index: nat, word: string, o: Options,
                     professions: seq<string>, spelling: seq<(string, int)>)
      requires index < |line.words| && word == line.words[index].word && Filled(entries)
      modifies out
      ensures out.written == old(out.written) + WordRow(entries, line.words, line.line, index, o, professions, spelling)
    {
      ghost var before := out.written;
      out.Write(word);
      ghost var features: seq<string> := [];
      if o.crf {
        features := Context.Row(line.words, line.line, index, word, o.nogloss, professions, spelling);
        Context.Write(out, line, index, word, o.nogloss, professions, spelling);
      }
      var lem := GetLem(line.words, word, o, professions);
      out.Write("\t" + lem + "\n");
      Context.Grouped3(before, [word], features, ["\t" + lem + "\n"]);
    }

    /** `process`: skips a line without a lemma, else writes its words between `<l>` tags. */
    method Process(out: Writer, line: Line, o: Options, professions: seq<string>, spelling: seq<(string, int)>)
      requires Filled(entries)
      modifies out
      ensures out.written == old(out.written) + Processed(entries, line.AsRecord(), o, professions, spelling)
    {
      if !(line.lem.Some? && line.lem.value != "") {
        return;
      }
      var damaged := "False";
      if line.damaged {
        if line.damagedAndTagged {
          damaged := "recoverable";
        } else {
          damaged := "unrecoverable";
        }
      }
      ghost var before := out.written;
      ghost var open: seq<string> := [];
      if !o.bare {
        open := ["<l damaged=\"" + damaged + "\">\n"];
        out.Write("<l damaged=\"" + damaged + "\">\n");
      }
      ghost var afterOpen := out.written;
      PrintWords(out, line, o, professions, spelling);
      ghost var afterRows := out.written;
      ghost var close: seq<string> := [];
      if !o.bare {
        close := ["</l>\n"];
        out.Write("</l>\n");
      }
      Assemble(before, open, Flat(Rows(entries, line.AsRecord(), o, professions, spelling)), close,
               afterOpen, afterRows, out.written, Processed(entries, line.AsRecord(), o, professions, spelling));
    }

    /** The loop of `process` over the words of the line: one row per word. */
    method PrintWords(out: Writer, line: Line, o: Options, professions: seq<string>, spelling: seq<(string, int)>)
      requires Filled(entries)
      modifies out
      ensures out.written == old(out.written) + Flat(Rows(entries, line.AsRecord(), o, professions, spelling))
    {
      ghost var rows := Rows(entries, line.AsRecord(), o, professions, spelling);
      for index := 0 to |line.words|
        invariant out.written == old(out.written) + Flat(rows[..index])
      {
        ghost var done := Flat(rows[..index]);
        PrintWord(out, line, index, line.words[index].word, o, professions, spelling);
        Regroup(old(out.written), done, rows[index]);
        TakeSnoc(rows, index);
      }
      TakeAll(rows);
    }

    /** `for line in lines: process(line, args)`. */
    method ProcessLines(out: Writer, ls: seq<Line>, o: Options, professions: seq<string>, spelling: seq<(string, int)>)
      requires Filled(entries)
      modifies out
      ensures out.written == old(out.written) + ProcessAll(entries, Records(ls), o, professions, spelling)
    {
      for j := 0 to |ls|
        invariant out.written == old(out.written) + ProcessAll(entries, Records(ls[..j]), o, professions, spelling)
      {
        ghost var done := ProcessAll(entries, Records(ls[..j]), o, professions, spelling);
        Process(out, ls[j], o, professions, spelling);
        ProcessAllSnoc(entries, ls, j, o, professions, spelling);
        Regroup(old(out.written), done, Processed(entries, ls[j].AsRecord(), o, professions, spelling));
      }
      TakeAll(ls);
    }

    /**
     * `parse`: accumulates the kept lines and processes them, after an empty
     * line, whenever the next line opens a tablet, and once more at the end
     * if lines remain.
     */
    method Parse(out: Writer, lines: seq<string>, o: Options, professions: seq<string>, spelling: seq<(string, int)>)
      requires Parseable(Pairwise(lines)) && Filled(entries)
      modifies out
      ensures out.written == old(out.written) + ParseOutput(entries, Pairwise(lines), o, professions, spelling)
    {
      var pairs := Pairwise(lines);
      ghost var header: seq<string> := [];
      if o.crf {
        header := Context.Header(spelling);
        Context.WriteHeader(out, spelling);
      }
      ghost var afterHeader := out.written;
      var batch;
      ghost var flushed;
      batch, flushed := ParseTablets(out, pairs, o, professions, spelling);
      ghost var afterTablets := out.written;
      ghost var tablets := Tablets(entries, flushed, o, professions, spelling);
      ghost var pending := Records(batch);
      ghost var tail := Trailing(entries, pending, o, professions, spelling);
      ParseTrailing(out, batch, pending, o, professions, spelling);
      ParseOutputParts(entries, pairs, o, professions, spelling, header, tablets, tail);
      Assemble(old(out.written), header, tablets, tail, afterHeader, afterTablets, out.written,
        ParseOutput(entries, pairs, o, professions, spelling));
    }

    /** The end of `parse`: the lines still accumulated, if any, processed after an empty line. */
    method ParseTrailing(out: Writer, batch: seq<Line>, ghost pending: seq<Record>, o: Options, professions: seq<string>,
                         spelling: seq<(string, int)>)
      requires Filled(entries) && Records(batch) == pending
      modifies out
      ensures out.written == old(out.written) + Trailing(entries, pending, o, professions, spelling)
    {
      if |batch| > 0 {
        ghost var done := out.written;
        out.Write("\n");
        ProcessLines(out, batch, o, professions, spelling);
        Regroup(done, ["\n"], ProcessAll(entries, pending, o, professions, spelling));
      }
    }

    /** The loop of `parse`: returns the lines still accumulated after the last pair. */
    method ParseTablets(out: Writer, pairs: seq<(string, string)>, o: Options, professions: seq<string>,
                        spelling: seq<(string, int)>) returns (batch: seq<Line>, ghost flushed: seq<seq<Record>>)
      requires Parseable(pairs) && Filled(entries)
      modifies out
      ensures flushed == Accumulated(pairs, KeptRecords(pairs)).flushed
      ensures out.written == old(out.written) + Tablets(entries, flushed, o, professions, spelling)
      ensures Records(batch) == Accumulated(pairs, KeptRecords(pairs)).pending
    {
      ghost var kept := KeptRecords(pairs);
      flushed := [];
      batch := [];
      for i := 0 to |pairs|
        invariant flushed == Accumulated(pairs[..i], kept[..i]).flushed
        invariant out.written == old(out.written) + Tablets(entries, flushed, o, professions, spelling)
        invariant Records(batch) == Accumulated(pairs[..i], kept[..i]).pending
      {
        batch := Accumulate(pairs[i], batch);
        batch, flushed := ParseStep(out, pairs, kept, i, batch, o, professions, spelling, flushed, old(out.written));
      }
      TakeAll(pairs);
      TakeAll(kept);
    }

    /** One pass of the loop of `parse`, once pair `i` is accumulated, in terms of the accumulation so far. */
    method ParseStep(out: Writer, pairs: seq<(string, string)>, ghost kept: seq<seq<Record>>, i: nat, batch: seq<Line>,
                     o: Options, professions: seq<string>, spelling: seq<(string, int)>,
                     ghost flushed: seq<seq<Record>>, ghost start: seq<string>)
        returns (next: seq<Line>, ghost flushedNext: seq<seq<Record>>)
      requires |kept| == |pairs| && i < |pairs| && Filled(entries)
      requires flushed == Accumulated(pairs[..i], kept[..i]).flushed
      requires Records(batch) == Accumulated(pairs[..i], kept[..i]).pending + kept[i]
      requires out.written == start + Tablets(entries, flushed, o, professions, spelling)
      modifies out
      ensures flushedNext == Accumulated(pairs[..i + 1], kept[..i + 1]).flushed
      ensures Records(next) == Accumulated(pairs[..i + 1], kept[..i + 1]).pending
      ensures out.written == start + Tablets(entries, flushedNext, o, professions, spelling)
    {
      AccumulatedStep(pairs, kept, i, flushed, Records(batch));
      next, flushedNext := CloseTablet(out, pairs[i], batch, o, professions, spelling, flushed, start);
    }

    /** The rest of one pass of the loop of `parse`: when `line2` opens a new tablet, the accumulated lines are flushed. */
    method CloseTablet(out: Writer, pair: (string, string), batch: seq<Line>,
                       o: Options, professions: seq<string>, spelling: seq<(string, int)>,
                       ghost flushed: seq<seq<Record>>, ghost start: seq<string>)
        returns (next: seq<Line>, ghost flushedNext: seq<seq<Record>>)
      requires Filled(entries)
      requires out.written == start + Tablets(entries, flushed, o, professions, spelling)
      modifies out
      ensures flushedNext == if Closes(pair) then flushed + [Records(batch)] else flushed
      ensures Records(next) == if Closes(pair) then [] else Records(batch)
      ensures out.written == start + Tablets(entries, flushedNext, o, professions, spelling)
    {
      next := batch;
      flushedNext := flushed;
      if StartsWith(Strip(pair.1), "&") {
        Flush(out, batch, o, professions, spelling, flushed, start);
        flushedNext := flushed + [Records(batch)];
        next := [];
      }
    }

    /** At the end of a tablet: an empty line, then the accumulated lines processed. */
    method Flush(out: Writer, batch: seq<Line>, o: Options, professions: seq<string>, spelling: seq<(string, int)>,
                 ghost flushed: seq<seq<Record>>, ghost start: seq<string>)
      requires Filled(entries)
      requires out.written == start + Tablets(entries, flushed, o, professions, spelling)
      modifies out
      ensures out.written == start + Tablets(entries, flushed + [Records(batch)], o, professions, spelling)
    {
      ghost var done := out.written;
      out.Write("\n");
      ProcessLines(out, batch, o, professions, spelling);
      Regroup(done, ["\n"], ProcessAll(entries, Records(batch), o, professions, spelling));
      TabletsSnoc(flushed, Records(batch), o, professions, spelling);
      Regroup(start, Tablets(entries, flushed, o, professions, spelling),
        ["\n"] + ProcessAll(entries, Records(batch), o, professions, spelling));
    }

    lemma TabletsSnoc(bs: seq<seq<Record>>, batch: seq<Record>, o: Options, professions: seq<string>,
                      spelling: seq<(string, int)>)
      requires Filled(entries)
      ensures Tablets(entries, bs + [batch], o, professions, spelling) ==
        Tablets(entries, bs, o, professions, spelling) + (["\n"] + ProcessAll(entries, batch, o, professions, spelling))
    {
      assert (bs + [batch])[..|bs|] == bs;
    }

    /** The innermost loop: one more count for each lemma of `lems`. */
    method CountLemmata(word: string, lems: seq<string>)
      requires word in entries
      modifies this
      ensures entries == old(entries)[word := CountAll(old(entries)[word], lems)]
    {
      for j := 0 to |lems|
        invariant entries == old(entries)[word := CountAll(old(entries)[word], lems[..j])]
      {
        TakeSnoc(lems, j);
        entries := entries[word := Inc(entries[word], lems[j], 1)];
      }
      TakeAll(lems);
    }
  }
}
