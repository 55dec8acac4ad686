/**
 * The conditional-random-field feature columns: neighbour lookup, gloss removal,
 * the `test_all`/`test_any` field writers, the syllable-repetition tests, and the
 * header and feature row, which carry the same number of fields.
 */
module Context {
  import opened Strings
  import opened Tablet
  import opened Streams

  // ---------------------------------------------------------------------------
  // Neighbours of a word

  /** `get_left_context`: the entry `offset` places to the left, or (None, None); lemmata lose their glosses under nogloss. */
  function LeftContext(words: seq<WordEntry>, index: int, offset: nat, nogloss: bool): (r: (Option<string>, Option<seq<string>>))
    requires index - offset < |words|
    ensures r.0.Some? <==> index - offset >= 0
    ensures r.1.Some? <==> r.0.Some?
    ensures r.0.Some? ==> r.0.value == words[index - offset].word
  {
    var raw := if index - offset >= 0 then (Some(words[index - offset].word), Some(words[index - offset].lemmata)) else (None, None);
    if nogloss then (raw.0, RemoveGloss(raw.1)) else raw
  }

  /** `get_right_context`: the entry `offset` places to the right, or (None, None) past the end. */
  function RightContext(words: seq<WordEntry>, index: int, offset: nat, nogloss: bool): (r: (Option<string>, Option<seq<string>>))
    requires index + offset >= 0
    ensures r.0.Some? <==> index + offset <= |words| - 1
    ensures r.1.Some? <==> r.0.Some?
    ensures r.0.Some? ==> r.0.value == words[index + offset].word
  {
    var raw := if |words| - 1 >= index + offset then (Some(words[index + offset].word), Some(words[index + offset].lemmata)) else (None, None);
    if nogloss then (raw.0, RemoveGloss(raw.1)) else raw
  }

  function Reverse<T>(s: seq<T>): (r: seq<T>)
    ensures |r| == |s| && forall i :: 0 <= i < |s| ==> r[i] == s[|s| - 1 - i]
  {
    seq(|s|, i requires 0 <= i < |s| => s[|s| - 1 - i])
  }

  /** The left neighbour of a word is its right neighbour in the reversed line. */
  lemma LeftIsRightOfReversed(words: seq<WordEntry>, index: int, offset: nat, nogloss: bool)
    requires 0 <= index < |words|
    ensures LeftContext(words, index, offset, nogloss) == RightContext(Reverse(words), |words| - 1 - index, offset, nogloss)
  {
    if index - offset >= 0 {
      assert Reverse(words)[|words| - 1 - index + offset] == words[index - offset];
    }
  }

  // ---------------------------------------------------------------------------
  // Glosses and lemma lists

  /** A glossed lemma (one containing `[`) is replaced by the `W` tag. */
  function Unglossed(l: string): string {
    if '[' in l then "W" else l
  }

  /** The distinct elements of `s`, each at its first occurrence. */
  function Dedupe(s: seq<string>): (r: seq<string>)
    ensures forall x :: x in r <==> x in s
    ensures forall i, j :: 0 <= i < j < |r| ==> r[i] != r[j]
    ensures |r| <= |s| && (|s| > 0 ==> |r| > 0)
  {
    if |s| == 0 then []
    else
      var rest := Dedupe(s[..|s| - 1]);
      assert s == s[..|s| - 1] + [s[|s| - 1]];
      if s[|s| - 1] in rest then rest else rest + [s[|s| - 1]]
  }

  /** `remove_gloss`: glossed lemmata become `W`, duplicates go; None and [] are returned as they are. */
  function RemoveGloss(lem: Option<seq<string>>): (r: Option<seq<string>>)
    ensures r.None? <==> lem.None?
    ensures r.Some? ==> (|r.value| == 0 <==> |lem.value| == 0)
    ensures r.Some? ==> forall i :: 0 <= i < |r.value| ==> '[' !in r.value[i]
    ensures r.Some? ==> forall i, j :: 0 <= i < j < |r.value| ==> r.value[i] != r.value[j]
  {
    if lem.None? || |lem.value| == 0 then lem
    else
      var mapped := seq(|lem.value|, i requires 0 <= i < |lem.value| => Unglossed(lem.value[i]));
      var r := Dedupe(mapped);
      assert forall i :: 0 <= i < |r| ==> r[i] in mapped;
      Some(r)
  }

  /** What survives `remove_gloss`: `W` for any glossed lemma, and every unglossed lemma itself. */
  lemma RemoveGlossMembers(lem: seq<string>, x: string)
    requires |lem| > 0
    ensures x in RemoveGloss(Some(lem)).value <==> exists i :: 0 <= i < |lem| && Unglossed(lem[i]) == x
  {
    var mapped := seq(|lem|, i requires 0 <= i < |lem| => Unglossed(lem[i]));
    if x in mapped {
      var i :| 0 <= i < |mapped| && mapped[i] == x;
      assert Unglossed(lem[i]) == x;
    }
    if exists i :: 0 <= i < |lem| && Unglossed(lem[i]) == x {
      var i :| 0 <= i < |lem| && Unglossed(lem[i]) == x;
      assert mapped[i] == x;
    }
  }

  /** `format_context`: None for None or an empty list, else the comma-joined lemmata. */
  function FormatContext(lem: Option<seq<string>>): (r: Option<string>)
    ensures r.None? <==> lem.None? || |lem.value| == 0
  {
    if lem.None? || |lem.value| == 0 then None else Some(Join(lem.value, ","))
  }

  /** Splitting a formatted context on commas gives the lemmata back when none holds a comma. */
  lemma FormatContextSplits(lem: seq<string>)
    requires |lem| > 0 && forall i :: 0 <= i < |lem| ==> ',' !in lem[i]
    ensures Split(FormatContext(Some(lem)).value, ',') == lem
  {
    SplitJoin(lem, ',');
  }

  /** Python `'{}'.format(x)` of an optional string. */
  function Show(x: Option<string>): string {
    if x.Some? then x.value else "None"
  }

  // ---------------------------------------------------------------------------
  // Boolean fields

  /** One boolean feature field: `\t1` or `\t0`. */
  function Bit(b: bool): string {
    if b then "\t1" else "\t0"
  }

  predicate AllTrue(tests: seq<bool>) {
    forall i :: 0 <= i < |tests| ==> tests[i]
  }

  predicate AnyTrue(tests: seq<bool>) {
    exists i :: 0 <= i < |tests| && tests[i]
  }

  /** `test_pass` */
  method TestPass(out: Writer)
    modifies out
    ensures out.written == old(out.written) + [Bit(true)]
  {
    out.Write("\t1");
  }

  /** `test_fail` */
  method TestFail(out: Writer)
    modifies out
    ensures out.written == old(out.written) + [Bit(false)]
  {
    out.Write("\t0");
  }

  /** `test_all`: exactly one field, `1` when every test holds (so also for no tests). */
  method TestAll(out: Writer, tests: seq<bool>)
    modifies out
    ensures out.written == old(out.written) + [Bit(AllTrue(tests))]
  {
    for i := 0 to |tests|
      invariant AllTrue(tests[..i])
    {
      if !tests[i] {
        TestFail(out);
        return;
      }
    }
    assert tests[..|tests|] == tests;
    TestPass(out);
  }

  /** `test_all([b])`: the one field is `b` itself. */
  method TestOne(out: Writer, b: bool)
    modifies out
    ensures out.written == old(out.written) + [Bit(b)]
  {
    assert AllTrue([b]) <==> [b][0];
    TestAll(out, [b]);
  }

  /** `test_any`: exactly one field, `1` when some test holds (so `0` for no tests). */
  method TestAny(out: Writer, tests: seq<bool>)
    modifies out
    ensures out.written == old(out.written) + [Bit(AnyTrue(tests))]
  {
    assert |tests| == 1 ==> AnyTrue(tests) == tests[0];
    for i := 0 to |tests|
      invariant !AnyTrue(tests[..i])
    {
      if tests[i] {
        assert tests[i] == tests[..i + 1][i];
        TestPass(out);
        return;
      }
      assert !AnyTrue(tests[..i + 1]) by {
        assert tests[..i + 1] == tests[..i] + [tests[i]];
      }
    }
    assert tests[..|tests|] == tests;
    TestFail(out);
  }

  // ---------------------------------------------------------------------------
  // Syllable repetition

  /** First syllable repeated: at least two hyphen-separated signs, the first two equal. */
  predicate FirstRepeated(word: string) {
    var signs := Split(word, '-');
    |signs| > 1 && signs[0] == signs[1]
  }

  /** Last syllable repeated: at least two signs, the last two equal. */
  predicate LastRepeated(word: string) {
    var signs := Split(word, '-');
    |signs| > 1 && signs[|signs| - 2] == signs[|signs| - 1]
  }

  /** `[a == b for (a, b) in zip(signs, signs[1:])]` */
  function AdjacentEqual(signs: seq<string>): (r: seq<bool>)
    requires |signs| > 0
    ensures |r| == |signs| - 1
  {
    seq(|signs| - 1, i requires 0 <= i < |signs| - 1 => signs[i] == signs[i + 1])
  }

  /** Any syllable repeated: at least two signs, some adjacent pair equal. */
  predicate AnyRepeated(word: string) {
    var signs := Split(word, '-');
    |signs| > 1 && AnyTrue(AdjacentEqual(signs))
  }

  /** A repeated first or last syllable is a repeated syllable; a repetition needs a hyphen. */
  lemma RepetitionTests(word: string)
    ensures FirstRepeated(word) || LastRepeated(word) ==> AnyRepeated(word)
    ensures AnyRepeated(word) ==> '-' in word
  {
    var signs := Split(word, '-');
    if FirstRepeated(word) {
      assert AdjacentEqual(signs)[0];
    }
    if LastRepeated(word) {
      assert AdjacentEqual(signs)[|signs| - 2];
    }
    if '-' !in word {
      assert Split(word, '-') == [word];
    }
  }

  // ---------------------------------------------------------------------------
  // Professions

  /** `[pf == lem for pf in professions for lem in lemmata]`, or with `pf in lem` when `within`. */
  function ProfessionTests(professions: seq<string>, lemmata: seq<string>, within: bool): (r: seq<bool>)
    ensures |r| == |professions| * |lemmata|
  {
    if |professions| == 0 then []
    else
      seq(|lemmata|, j requires 0 <= j < |lemmata| =>
        if within then Contains(lemmata[j], professions[0]) else professions[0] == lemmata[j])
      + ProfessionTests(professions[1..], lemmata, within)
  }

  /** Some test holds exactly when some lemma is (or contains) some profession. */
  lemma {:induction false} ProfessionTestsMeaning(professions: seq<string>, lemmata: seq<string>, within: bool)
    ensures AnyTrue(ProfessionTests(professions, lemmata, within)) <==>
      exists i, j :: 0 <= i < |professions| && 0 <= j < |lemmata| &&
        (if within then Contains(lemmata[j], professions[i]) else professions[i] == lemmata[j])
    decreases |professions|
  {
    if |professions| > 0 {
      ProfessionTestsMeaning(professions[1..], lemmata, within);
      var head := seq(|lemmata|, j requires 0 <= j < |lemmata| =>
        if within then Contains(lemmata[j], professions[0]) else professions[0] == lemmata[j]);
      var tail := ProfessionTests(professions[1..], lemmata, within);
      assert ProfessionTests(professions, lemmata, within) == head + tail;
      if AnyTrue(head + tail) {
        var k :| 0 <= k < |head + tail| && (head + tail)[k];
        if k < |head| {
          assert head[k];
        } else {
          assert tail[k - |head|];
          var i, j :| 0 <= i < |professions[1..]| && 0 <= j < |lemmata| &&
            (if within then Contains(lemmata[j], professions[1..][i]) else professions[1..][i] == lemmata[j]);
          assert professions[1..][i] == professions[i + 1];
        }
      }
      if exists i, j :: (0 <= i < |professions| && 0 <= j < |lemmata| &&
        (if within then Contains(lemmata[j], professions[i]) else professions[i] == lemmata[j]))
      {
        var i, j :| 0 <= i < |professions| && 0 <= j < |lemmata| &&
          (if within then Contains(lemmata[j], professions[i]) else professions[i] == lemmata[j]);
        if i == 0 {
          assert (head + tail)[j] == head[j];
        } else {
          assert professions[1..][i - 1] == professions[i];
          var k :| 0 <= k < |tail| && tail[k];
          assert (head + tail)[|head| + k] == tail[k];
        }
      }
    } else {
      assert ProfessionTests(professions, lemmata, within) == [];
    }
  }

  /** A neighbour as `get_left_context`/`get_right_context` return it: lemmata only with a word of the line. */
  predicate NeighbourOf(words: seq<WordEntry>, cx: (Option<string>, Option<seq<string>>)) {
    cx.1.Some? ==> cx.0.Some? && LemmataOf(words, cx.0.value).Some?
  }

  /** "Left/right context is (contains) profession": the neighbour's lemmata are non-empty, and its word's lemmata match. */
  function NeighbourProfession(words: seq<WordEntry>, cx: (Option<string>, Option<seq<string>>), professions: seq<string>, within: bool): bool
    requires NeighbourOf(words, cx)
  {
    if cx.1.Some? && |cx.1.value| > 0 then
      AnyTrue(ProfessionTests(professions, LemmataOf(words, cx.0.value).value, within))
    else false
  }

  /** The neighbours of a word of the line are words of the line. */
  lemma ContextsAreNeighbours(words: seq<WordEntry>, index: int, nogloss: bool)
    requires 0 <= index <= |words|
    ensures NeighbourOf(words, LeftContext(words, index, 1, nogloss))
    ensures NeighbourOf(words, LeftContext(words, index, 2, nogloss))
    ensures NeighbourOf(words, RightContext(words, index, 1, nogloss))
  {
    var l1 := LeftContext(words, index, 1, nogloss);
    var l2 := LeftContext(words, index, 2, nogloss);
    var r1 := RightContext(words, index, 1, nogloss);
    if l1.0.Some? { assert words[index - 1].word == l1.0.value; }
    if l2.0.Some? { assert words[index - 2].word == l2.0.value; }
    if r1.0.Some? { assert words[index + 1].word == r1.0.value; }
  }

  // ---------------------------------------------------------------------------
  // The feature row and the header

  /** The sixteen left-hand words that mark a numeric classifier. */
  const Classifiers: seq<string> := ["ba-an", "ba-ri2-ga", "bur3", "da-na", "gin2-tur", "gin2", "gur-lugal",
    "gur-sag-gal2", "gur", "iku", "GAN2", "ku-li-mu", "ku-li-kam", "kusz3", "sar", "sila3"]

  /** The context rules are an empty list. */
  const ContextRules: seq<(string, int)> := []

  /** The titles of the 37 fixed columns, in header order. */
  const Titles: seq<string> := [
    "Word/Lemma (Do not use!)", "Word Index", "Left Context Word", "Right Context Word", "Line Context",
    "Is Word Alone On Line", "Left context is dumu", "Right context is dumu", "None ki (word) None",
    "None igi (word) None", "None igi (word)-sze3 None", "Personnenkeil", "None kiszib3 (word)",
    "None giri3 (word)", "First syllable repeated", "Last syllable repeated", "Any syllable repeated",
    "Is profession", "Contains profession", "Left Context is profession", "Left Context contains profession",
    "Right Context is profession", "Right Context contains profession", "Starts with ur-", "Starts with lu2-",
    "Ends with -mu", "Contains {d}", "Contains {ki}", "Contains any determinative", "Contains q sound",
    "Contains lugal", "Contains number", "Followed by sag", "Followed by zarin",
    "Preceded by numeric classifier", "iti at head of sentence", "mu at head of sentence"]

  /** `(leftcx2, leftcx, rightcx) == (None, w, None)`: the word stands alone after `w`. */
  predicate AloneAfter(l2: Option<string>, l1: Option<string>, r1: Option<string>, w: string) {
    l2.None? && l1 == Some(w) && r1.None?
  }

  /** Boolean fields 1-9: the word's position among its neighbours. */
  function PositionFields(l2: Option<string>, l1: Option<string>, r1: Option<string>, word: string): (r: seq<string>)
    ensures |r| == 9
  {
    [ Bit(l1.None? && r1.None?),
      Bit(l1 == Some("dumu")),
      Bit(r1 == Some("dumu")),
      Bit(AloneAfter(l2, l1, r1, "ki")),
      Bit(AloneAfter(l2, l1, r1, "igi")),
      Bit(AllTrue([AloneAfter(l2, l1, r1, "igi"), EndsWith(word, "-sze3")])),
      Bit(AloneAfter(l2, l1, r1, "1(disz)")),
      Bit(AloneAfter(l2, l1, r1, "kiszib3")),
      Bit(AloneAfter(l2, l1, r1, "giri3")) ]
  }

  /** Boolean fields 10-12: syllable repetition. */
  function SyllableFields(word: string): (r: seq<string>)
    ensures |r| == 3
  {
    [Bit(FirstRepeated(word)), Bit(LastRepeated(word)), Bit(AnyRepeated(word))]
  }

  /** Boolean fields 13-18: professions among the word's lemmata and its neighbours'. */
  function ProfessionFields(words: seq<WordEntry>, lemmata: seq<string>, l1: (Option<string>, Option<seq<string>>),
                            r1: (Option<string>, Option<seq<string>>), professions: seq<string>): (r: seq<string>)
    requires NeighbourOf(words, l1) && NeighbourOf(words, r1)
    ensures |r| == 6
  {
    [ Bit(AnyTrue(ProfessionTests(professions, lemmata, false))),
      Bit(AnyTrue(ProfessionTests(professions, lemmata, true))),
      Bit(NeighbourProfession(words, l1, professions, false)),
      Bit(NeighbourProfession(words, l1, professions, true)),
      Bit(NeighbourProfession(words, r1, professions, false)),
      Bit(NeighbourProfession(words, r1, professions, true)) ]
  }

  /** Boolean fields 19-27: the spelling of the word itself. */
  function SpellingFields(word: string): (r: seq<string>)
    ensures |r| == 9
  {
    [ Bit(StartsWith(word, "ur-")),
      Bit(StartsWith(word, "lu2-")),
      Bit(EndsWith(word, "-mu")),
      Bit(Contains(word, "{d}")),
      Bit(Contains(word, "{ki}")),
      Bit('{' in word),
      Bit('q' in word),
      Bit(Contains(word, "lugal")),
      Bit(AnyTrue([Contains(word, "(asz)"), Contains(word, "(disz)"), Contains(word, "(u)")])) ]
  }

  /** Boolean fields 28-32: the following and preceding word, and the head of the line. */
  function SentenceFields(l1: Option<string>, r1: Option<string>, head: string): (r: seq<string>)
    ensures |r| == 5
  {
    [ Bit(r1 == Some("sag")),
      Bit(r1 == Some("zarin")),
      Bit(l1.Some? && l1.value in Classifiers),
      Bit(head == "iti"),
      Bit(head == "mu") ]
  }

  /** The word's place in the line: its lemmata exist, so it is a word of a non-empty line. */
  predicate InLine(words: seq<WordEntry>, index: int, word: string) {
    0 <= index <= |words| && LemmataOf(words, word).Some?
  }

  /** The 32 boolean fields of `write`, in column order. */
  function FeatureFields(words: seq<WordEntry>, index: int, word: string, nogloss: bool, professions: seq<string>): (r: seq<string>)
    requires InLine(words, index, word)
    ensures |r| == 32
  {
    var l1 := LeftContext(words, index, 1, nogloss);
    var l2 := LeftContext(words, index, 2, nogloss);
    var r1 := RightContext(words, index, 1, nogloss);
    ContextsAreNeighbours(words, index, nogloss);
    PositionFields(l2.0, l1.0, r1.0, word)
    + SyllableFields(word)
    + ProfessionFields(words, LemmataOf(words, word).value, l1, r1, professions)
    + SpellingFields(word)
    + SentenceFields(l1.0, r1.0, words[0].word)
  }

  /** The five descriptive fields of `write`: word/lemmata, index, left word, right word, line text. */
  function Descriptive(words: seq<WordEntry>, text: string, index: int, word: string, nogloss: bool): (r: seq<string>)
    requires InLine(words, index, word)
    ensures |r| == 5
  {
    [ "\t\"" + word + "/" + Show(FormatContext(LemmataOf(words, word))) + "\"",
      "\t" + IntToString(index),
      "\t" + Show(LeftContext(words, index, 1, nogloss).0),
      "\t" + Show(RightContext(words, index, 1, nogloss).0),
      "\t\"" + text + "\"" ]
  }

  /** One field per spelling rule: does the word contain the rule's token. */
  function RuleFields(word: string, spelling: seq<(string, int)>): (r: seq<string>)
    ensures |r| == |spelling| && forall i :: 0 <= i < |r| ==> r[i] == Bit(Contains(word, spelling[i].0))
  {
    seq(|spelling|, i requires 0 <= i < |spelling| => Bit(Contains(word, spelling[i].0)))
  }

  /** Everything `write` emits for one word, one entry per field. */
  function Row(words: seq<WordEntry>, text: string, index: int, word: string, nogloss: bool,
               professions: seq<string>, spelling: seq<(string, int)>): seq<string>
    requires InLine(words, index, word)
  {
    Descriptive(words, text, index, word, nogloss)
    + FeatureFields(words, index, word, nogloss, professions)
    + RuleFields(word, spelling)
  }

  /** The titles of a list of induced rules: `<kind> <token> (<frequency>)`. */
  function RuleTitles(kind: string, rules: seq<(string, int)>): (r: seq<string>)
    ensures |r| == |rules|
    ensures forall i :: 0 <= i < |rules| ==> r[i] == kind + " " + rules[i].0 + " (" + IntToString(rules[i].1) + ")"
  {
    seq(|rules|, i requires 0 <= i < |rules| => kind + " " + rules[i].0 + " (" + IntToString(rules[i].1) + ")")
  }

  /** Prefixes every title with its field separator. */
  function Fields(titles: seq<string>): (r: seq<string>)
    ensures |r| == |titles| && forall i :: 0 <= i < |titles| ==> r[i] == "\t" + titles[i]
  {
    seq(|titles|, i requires 0 <= i < |titles| => "\t" + titles[i])
  }

  /** The column titles of `write_header`, in order. */
  function HeaderTitles(spelling: seq<(string, int)>): seq<string> {
    Titles + RuleTitles("Context", ContextRules) + RuleTitles("Contains", spelling)
  }

  /** Everything `write_header` emits: the fixed titles in one write, one write per rule, then the newline. */
  function Header(spelling: seq<(string, int)>): seq<string> {
    [Concat(Fields(Titles))] + Fields(RuleTitles("Context", ContextRules)) + Fields(RuleTitles("Contains", spelling)) + ["\n"]
  }

  /** Every feature row has one field per header column: 5 descriptive, 32 boolean, one per spelling rule. */
  lemma RowMatchesHeader(words: seq<WordEntry>, text: string, index: int, word: string, nogloss: bool,
                         professions: seq<string>, spelling: seq<(string, int)>)
    requires InLine(words, index, word)
    ensures |Row(words, text, index, word, nogloss, professions, spelling)| == |HeaderTitles(spelling)| == 37 + |spelling|
  {
  }

  /** `write_header` */
  method WriteHeader(out: Writer, spelling: seq<(string, int)>)
    modifies out
    ensures out.written == old(out.written) + Header(spelling)
  {
    ghost var start := out.written;
    out.Write(Concat(Fields(Titles)));
    ghost var afterTitles := out.written;
    WriteRules(out, "Context", ContextRules);
    ghost var afterContext := out.written;
    WriteRules(out, "Contains", spelling);
    ghost var afterContains := out.written;
    out.Write("\n");
    Appended4(start, [Concat(Fields(Titles))], Fields(RuleTitles("Context", ContextRules)),
              Fields(RuleTitles("Contains", spelling)), ["\n"], afterTitles, afterContext, afterContains, out.written);
  }

  /** `for (token, frequency) in rules: write('\t<kind> {} ({})')` */
  method WriteRules(out: Writer, kind: string, rules: seq<(string, int)>)
    modifies out
    ensures out.written == old(out.written) + Fields(RuleTitles(kind, rules))
  {
    for i := 0 to |rules|
      invariant out.written == old(out.written) + Fields(RuleTitles(kind, rules[..i]))
    {
      var title := kind + " " + rules[i].0 + " (" + IntToString(rules[i].1) + ")";
      out.Write("\t" + title);
      assert Fields(RuleTitles(kind, rules[..i + 1])) == Fields(RuleTitles(kind, rules[..i])) + ["\t" + title];
    }
    TakeAll(rules);
  }

  /** `write`: the row of features for word number `index` of `line`. */
  method Write(out: Writer, line: Line, index: int, word: string, nogloss: bool,
               professions: seq<string>, spelling: seq<(string, int)>)
    requires InLine(line.words, index, word)
    modifies out
    ensures out.written == old(out.written) + Row(line.words, line.line, index, word, nogloss, professions, spelling)
  {
    var words := line.words;
    var text := line.line;
    WriteDescriptive(out, words, text, index, word, nogloss);
    WriteFeatures(out, words, index, word, nogloss, professions);
    WriteRuleTests(out, word, spelling);
    Grouped3(old(out.written), Descriptive(words, text, index, word, nogloss),
      FeatureFields(words, index, word, nogloss, professions), RuleFields(word, spelling));
  }

  /** The five descriptive fields. */
  method WriteDescriptive(out: Writer, words: seq<WordEntry>, text: string, index: int, word: string, nogloss: bool)
    requires InLine(words, index, word)
    modifies out
    ensures out.written == old(out.written) + Descriptive(words, text, index, word, nogloss)
  {
    var lemmata := LemmataOf(words, word).value;
    var l1 := LeftContext(words, index, 1, nogloss);
    var r1 := RightContext(words, index, 1, nogloss);
    var f1 := "\t\"" + word + "/" + Show(FormatContext(Some(lemmata))) + "\"";
    var f2 := "\t" + IntToString(index);
    var f3 := "\t" + Show(l1.0);
    var f4 := "\t" + Show(r1.0);
    var f5 := "\t\"" + text + "\"";
    out.Write(f1);
    out.Write(f2);
    out.Write(f3);
    out.Write(f4);
    out.Write(f5);
    Appended5(old(out.written), f1, f2, f3, f4, f5);
  }

  /** The 32 boolean fields, group by group. */
  method WriteFeatures(out: Writer, words: seq<WordEntry>, index: int, word: string, nogloss: bool, professions: seq<string>)
    requires InLine(words, index, word)
    modifies out
    ensures out.written == old(out.written) + FeatureFields(words, index, word, nogloss, professions)
  {
    var lemmata := LemmataOf(words, word).value;
    var l1 := LeftContext(words, index, 1, nogloss);
    var l2 := LeftContext(words, index, 2, nogloss);
    var r1 := RightContext(words, index, 1, nogloss);
    ContextsAreNeighbours(words, index, nogloss);
    WritePositionTests(out, l2.0, l1.0, r1.0, word);
    WriteSyllableTests(out, word);
    WriteProfessionTests(out, words, lemmata, l1, r1, professions);
    WriteSpellingTests(out, word);
    WriteSentenceTests(out, l1.0, r1.0, words[0].word);
    Grouped5(old(out.written), PositionFields(l2.0, l1.0, r1.0, word), SyllableFields(word),
      ProfessionFields(words, lemmata, l1, r1, professions), SpellingFields(word), SentenceFields(l1.0, r1.0, words[0].word));
  }

  /** Boolean fields 1-9. */
  method WritePositionTests(out: Writer, l2: Option<string>, l1: Option<string>, r1: Option<string>, word: string)
    modifies out
    ensures out.written == old(out.written) + PositionFields(l2, l1, r1, word)
  {
    TestOne(out, (l1, r1) == (None, None));
    TestOne(out, l1 == Some("dumu"));
    TestOne(out, r1 == Some("dumu"));
    TestOne(out, (l2, l1, r1) == (None, Some("ki"), None));
    TestOne(out, (l2, l1, r1) == (None, Some("igi"), None));
    var igiSze := [(l2, l1, r1) == (None, Some("igi"), None), EndsWith(word, "-sze3")];
    TestAll(out, igiSze);
    TestOne(out, (l2, l1, r1) == (None, Some("1(disz)"), None));
    TestOne(out, (l2, l1, r1) == (None, Some("kiszib3"), None));
    TestOne(out, (l2, l1, r1) == (None, Some("giri3"), None));
    Appended9(old(out.written),
      Bit((l1, r1) == (None, None)), Bit(l1 == Some("dumu")), Bit(r1 == Some("dumu")),
      Bit((l2, l1, r1) == (None, Some("ki"), None)), Bit((l2, l1, r1) == (None, Some("igi"), None)),
      Bit(AllTrue(igiSze)), Bit((l2, l1, r1) == (None, Some("1(disz)"), None)),
      Bit((l2, l1, r1) == (None, Some("kiszib3"), None)), Bit((l2, l1, r1) == (None, Some("giri3"), None)));
  }

  /** Boolean fields 10-12: each needs at least two signs, and fails without them. */
  method WriteSyllableTests(out: Writer, word: string)
    modifies out
    ensures out.written == old(out.written) + SyllableFields(word)
  {
    var signs := Split(word, '-');
    if |signs| > 1 {
      TestOne(out, signs[0] == signs[1]);
    } else {
      TestFail(out);
    }
    if |signs| > 1 {
      TestOne(out, signs[|signs| - 2] == signs[|signs| - 1]);
    } else {
      TestFail(out);
    }
    if |signs| > 1 {
      TestAny(out, AdjacentEqual(signs));
    } else {
      TestFail(out);
    }
    Appended3(old(out.written), Bit(FirstRepeated(word)), Bit(LastRepeated(word)), Bit(AnyRepeated(word)));
  }

  /** Boolean fields 13-18. */
  method WriteProfessionTests(out: Writer, words: seq<WordEntry>, lemmata: seq<string>,
                              l1: (Option<string>, Option<seq<string>>), r1: (Option<string>, Option<seq<string>>),
                              professions: seq<string>)
    requires NeighbourOf(words, l1) && NeighbourOf(words, r1)
    modifies out
    ensures out.written == old(out.written) + ProfessionFields(words, lemmata, l1, r1, professions)
  {
    TestAny(out, ProfessionTests(professions, lemmata, false));
    TestAny(out, ProfessionTests(professions, lemmata, true));
    WriteNeighbourTests(out, words, l1, professions, false);
    WriteNeighbourTests(out, words, l1, professions, true);
    WriteNeighbourTests(out, words, r1, professions, false);
    WriteNeighbourTests(out, words, r1, professions, true);
    Appended6(old(out.written),
      Bit(AnyTrue(ProfessionTests(professions, lemmata, false))),
      Bit(AnyTrue(ProfessionTests(professions, lemmata, true))),
      Bit(NeighbourProfession(words, l1, professions, false)),
      Bit(NeighbourProfession(words, l1, professions, true)),
      Bit(NeighbourProfession(words, r1, professions, false)),
      Bit(NeighbourProfession(words, r1, professions, true)));
  }

  /** `if leftlem: test_any(...) else: test_fail()`, by equality or, when `within`, by containment. */
  method WriteNeighbourTests(out: Writer, words: seq<WordEntry>, cx: (Option<string>, Option<seq<string>>),
                             professions: seq<string>, within: bool)
    requires NeighbourOf(words, cx)
    modifies out
    ensures out.written == old(out.written) + [Bit(NeighbourProfession(words, cx, professions, within))]
  {
    if cx.1.Some? && |cx.1.value| > 0 {
      TestAny(out, ProfessionTests(professions, LemmataOf(words, cx.0.value).value, within));
    } else {
      TestFail(out);
    }
  }

  /** Boolean fields 19-27. */
  method WriteSpellingTests(out: Writer, word: string)
    modifies out
    ensures out.written == old(out.written) + SpellingFields(word)
  {
    var ur, lu, mu := StartsWith(word, "ur-"), StartsWith(word, "lu2-"), EndsWith(word, "-mu");
    var d, ki, det, q := Contains(word, "{d}"), Contains(word, "{ki}"), '{' in word, 'q' in word;
    var lugal := Contains(word, "lugal");
    var numbers := [Contains(word, "(asz)"), Contains(word, "(disz)"), Contains(word, "(u)")];
    TestOne(out, ur);
    TestOne(out, lu);
    TestOne(out, mu);
    TestOne(out, d);
    TestOne(out, ki);
    TestOne(out, det);
    TestOne(out, q);
    TestOne(out, lugal);
    TestAny(out, numbers);
    Appended9(old(out.written), Bit(ur), Bit(lu), Bit(mu), Bit(d), Bit(ki), Bit(det), Bit(q), Bit(lugal), Bit(AnyTrue(numbers)));
  }

  /** Boolean fields 28-32. */
  method WriteSentenceTests(out: Writer, l1: Option<string>, r1: Option<string>, head: string)
    modifies out
    ensures out.written == old(out.written) + SentenceFields(l1, r1, head)
  {
    TestOne(out, r1 == Some("sag"));
    TestOne(out, r1 == Some("zarin"));
    TestOne(out, l1.Some? && l1.value in Classifiers);
    TestOne(out, "iti" == head);
    TestOne(out, "mu" == head);
    Appended5(old(out.written), Bit(r1 == Some("sag")), Bit(r1 == Some("zarin")),
      Bit(l1.Some? && l1.value in Classifiers), Bit("iti" == head), Bit("mu" == head));
  }

  // Sequence bookkeeping: writes append one field at a time, and these lemmas regroup the
  // appended fields; no behaviour of the feature writer is modelled here.

  lemma Appended3(s: seq<string>, a: string, b: string, c: string)
    ensures s + [a] + [b] + [c] == s + [a, b, c]
  {
  }

  lemma Appended5(s: seq<string>, a: string, b: string, c: string, d: string, e: string)
    ensures s + [a] + [b] + [c] + [d] + [e] == s + [a, b, c, d, e]
  {
  }

  lemma Appended6(s: seq<string>, a: string, b: string, c: string, d: string, e: string, f: string)
    ensures s + [a] + [b] + [c] + [d] + [e] + [f] == s + [a, b, c, d, e, f]
  {
  }

  lemma Appended9(s: seq<string>, a: string, b: string, c: string, d: string, e: string,
                  f: string, g: string, h: string, i: string)
    ensures s + [a] + [b] + [c] + [d] + [e] + [f] + [g] + [h] + [i] == s + [a, b, c, d, e, f, g, h, i]
  {
  }

  lemma Grouped3(s: seq<string>, p: seq<string>, q: seq<string>, r: seq<string>)
    ensures s + p + q + r == s + (p + q + r)
  {
  }

  lemma Grouped5(s: seq<string>, p: seq<string>, q: seq<string>, r: seq<string>, t: seq<string>, u: seq<string>)
    ensures s + p + q + r + t + u == s + (p + q + r + t + u)
  {
  }

  /** The spelling-rule fields: one `test_all` per rule. */
  method WriteRuleTests(out: Writer, word: string, spelling: seq<(string, int)>)
    modifies out
    ensures out.written == old(out.written) + RuleFields(word, spelling)
  {
    for i := 0 to |spelling|
      invariant out.written == old(out.written) + RuleFields(word, spelling[..i])
    {
      TestOne(out, Contains(word, spelling[i].0));
      assert RuleFields(word, spelling[..i + 1]) == RuleFields(word, spelling[..i]) + [Bit(Contains(word, spelling[i].0))];
    }
    assert spelling[..|spelling|] == spelling;
  }
}
