/**
 * One transliteration line together with its lemma line: cleaning of the
 * transliteration, alignment of its words with the `;`-separated lemma tokens,
 * and the damage flags (the `Line` record of tablet.py).
 *
 * The value-level functions (`Cleaned`, `Align`, `ParseRecord`, ...) are the
 * specification; the class `Line` updates its fields step by step as the
 * source does and is proved to end in the state `ParseLine` describes.
 */
module Tablet {
  import opened Strings

  /** A text line starting with one of these characters is a comment or directive. */
  const Comment := "&$@#"

  /** Transliteration noise deleted by the last cleaning step. */
  const Noise := "[]!?#*<>"

  /** A recorded word with the lemmata its lemma token lists (split on `|`). */
  datatype WordEntry = WordEntry(word: string, lemmata: seq<string>)

  /** The fields of a parsed `Line` object. */
  datatype Record = Record(
    line: string,
    lem: Option<string>,
    valid: bool,
    words: seq<WordEntry>,
    damaged: bool,
    damagedAndTagged: bool)

  // ---------------------------------------------------------------------------
  // Cleaning of the transliteration text

  /** Cleaning step 1: `' '.join(line.split(' ')[1:])`, dropping the line number. */
  function DropLineNumber(line: string): string {
    Join(Split(line, ' ')[1..], " ")
  }

  /** Dropping the first token keeps exactly the text after the first space. */
  lemma DropLineNumberIsTail(line: string)
    ensures DropLineNumber(line) == if ' ' in line then line[IndexOf(line, ' ') + 1..] else ""
  {
    if ' ' in line {
      var i := IndexOf(line, ' ');
      var rest := Split(line[i + 1..], ' ');
      assert Split(line, ' ') == [line[..i]] + rest;
      assert Split(line, ' ')[1..] == rest;
      SplitJoinBack(line[i + 1..], ' ');
    } else {
      assert Split(line, ' ') == [line];
    }
  }

  /** Cleaning step 2: isolated ` , ` tokens and one trailing comma go. */
  function DropCommas(line: string): string {
    var t := Replace(line, " , ", " ");
    if EndsWith(t, ",") then t[..|t| - 1] else t
  }

  /** The character class of the implied-sign pattern `<<([A-Za-z0-9-()/#?*{}|@+ ]+)>>`. */
  predicate ImpliedChar(c: char) {
    ('A' <= c <= 'Z') || ('a' <= c <= 'z') || ('0' <= c <= '9') || c in "-()/#?*{}|@+ "
  }

  /** End of the maximal run of `ImpliedChar` characters starting at `i`. */
  function ImpliedRun(s: string, i: nat): (j: nat)
    requires i <= |s|
    ensures i <= j <= |s|
    ensures forall k :: i <= k < j ==> ImpliedChar(s[k])
    ensures j < |s| ==> !ImpliedChar(s[j])
    decreases |s| - i
  {
    if i == |s| || !ImpliedChar(s[i]) then i else ImpliedRun(s, i + 1)
  }

  /**
   * Cleaning step 3: `re_impl.sub('', line)`. A match needs `<<`, a non-empty run
   * of class characters and `>>`; since `<` and `>` are outside the class, the
   * greedy run is the only candidate, and scanning resumes after each match.
   */
  function RemoveImplied(s: string): (r: string)
    ensures |r| <= |s|
    decreases |s|
  {
    if |s| < 2 then s
    else if s[0] == '<' && s[1] == '<' then
      var j := ImpliedRun(s, 2);
      if j > 2 && j + 2 <= |s| && s[j] == '>' && s[j + 1] == '>' then RemoveImplied(s[j + 2..])
      else [s[0]] + RemoveImplied(s[1..])
    else [s[0]] + RemoveImplied(s[1..])
  }

  /** A line without `<` has nothing for the implied-sign pattern to remove. */
  lemma {:induction false} RemoveImpliedKeepsPlainText(s: string)
    requires '<' !in s
    ensures RemoveImplied(s) == s
    decreases |s|
  {
    if |s| >= 2 {
      assert s[0] in s;
      RemoveImpliedKeepsPlainText(s[1..]);
      assert s == [s[0]] + s[1..];
    }
  }

  /** Cleaning steps 1 to 4: everything before erasures are resolved (step 4 rewrites `s,` to `sz`). */
  function PreErasure(line: string): string {
    Replace(RemoveImplied(DropCommas(DropLineNumber(line))), "s,", "sz")
  }

  /** Where `removeErasures` cuts next: the first `!(`, or -1. */
  function ErasureStart(s: string): int {
    Find(s, "!(", 0)
  }

  /** The first `)` after that `!(`, or -1. */
  function ErasureEnd(s: string): int
    requires ErasureStart(s) != -1
  {
    Find(s, ")", ErasureStart(s) + 1)
  }

  /** One pass of `removeErasures`' loop: from the `(` after the first `!` up to the next `)`, both included. */
  function ErasureCut(s: string): (r: string)
    requires ErasureStart(s) != -1 && ErasureEnd(s) != -1
    ensures |r| < |s|
  {
    s[..ErasureStart(s) + 1] + s[ErasureEnd(s) + 1..]
  }

  /** `removeErasures` stops: every `!(` it meets has a `)` after it. */
  predicate ErasuresTerminate(s: string)
    decreases |s|
  {
    ErasureStart(s) == -1 || (ErasureEnd(s) != -1 && ErasuresTerminate(ErasureCut(s)))
  }

  /**
   * What `removeErasures` computes, when it terminates: each `!(...)` loses its
   * parenthesised part and keeps the `!`. The loop does not terminate when a `!(`
   * has no later `)`, so this is defined only under `ErasuresTerminate`.
   */
  function Erased(s: string): (r: string)
    requires ErasuresTerminate(s)
    ensures |r| <= |s|
    decreases |s|
  {
    if ErasureStart(s) == -1 then s else Erased(ErasureCut(s))
  }

  /** No `!(` survives the erasure loop. */
  lemma {:induction false} ErasedClean(s: string)
    requires ErasuresTerminate(s)
    ensures !Contains(Erased(s), "!(")
    decreases |s|
  {
    if ErasureStart(s) == -1 {
      FindIsContains(s, "!(");
    } else {
      ErasedClean(ErasureCut(s));
    }
  }

  /** The positions the erasure loop computes are those of `ErasureCut`. */
  lemma ErasureCutAt(s: string, start: int, end: int)
    requires start == ErasureStart(s) && start != -1 && end == Find(s, ")", start + 1)
    ensures end == ErasureEnd(s)
    ensures end != -1 ==> s[..start + 1] + s[end + 1..] == ErasureCut(s)
  {
  }

  /** One pass of the erasure loop finds a `)`, keeps the termination guarantee and keeps the outcome. */
  lemma ErasureStep(s: string)
    requires ErasuresTerminate(s) && ErasureStart(s) != -1
    ensures ErasureEnd(s) != -1 && ErasuresTerminate(ErasureCut(s)) && Erased(ErasureCut(s)) == Erased(s)
  {
  }

  /**
   * A first `!(` with no `)` anywhere after it sends `removeErasures` into an
   * endless loop, whatever comes before it (`a)b!(c` loops).
   */
  lemma UnclosedErasureDiverges(s: string)
    requires ErasureStart(s) != -1
    requires forall i :: ErasureStart(s) < i < |s| ==> s[i] != ')'
    ensures !ErasuresTerminate(s)
  {
    CharAbsent(s, ')', ErasureStart(s) + 1);
    assert ErasureEnd(s) == -1;
  }

  /** A character that does not occur from `from` on is not found from there. */
  lemma {:induction false} CharAbsent(s: string, c: char, from: nat)
    requires forall i :: from <= i < |s| ==> s[i] != c
    ensures Find(s, [c], from) == -1
    decreases |s| - from
  {
    if from + 1 <= |s| {
      assert s[from..from + 1][0] == s[from];
      CharAbsent(s, c, from + 1);
    }
  }

  /** The line `a)b!(c`: its only `)` comes before the `!(`, and the erasure loop never ends. */
  lemma ClosedBeforeDiverges()
    ensures !ErasuresTerminate("a)b!(c")
  {
    var s := "a)b!(c";
    assert OccursAt(s, "!(", 3);
    assert s[0..2][0] == 'a' && s[1..3][0] == ')' && s[2..4][0] == 'b';
    assert ErasureStart(s) == 3;
    UnclosedErasureDiverges(s);
  }

  /** Where `removeAdditions` finds its next `<<`, or -1. */
  function AdditionStart(s: string): int {
    Find(s, "<<", 0)
  }

  /** The first `>>` after the second `<` of that `<<`, or -1. */
  function AdditionEnd(s: string): int
    requires AdditionStart(s) != -1
  {
    Find(s, ">>", AdditionStart(s) + 1)
  }

  /** One step of `removeAdditions`: keeps the first `<` and the second `>`, drops what lies between. */
  function AdditionCut(s: string): (r: string)
    requires AdditionStart(s) != -1 && AdditionEnd(s) != -1
    ensures |r| < |s|
  {
    s[..AdditionStart(s) + 1] + s[AdditionEnd(s) + 1..]
  }

  /**
   * What `removeAdditions` computes: each `<<` loses the text from its second `<`
   * up to the first `>` of the next `>>`; when a `<<` has no later `>>`, every `<`
   * is deleted instead and the loop stops.
   */
  function WithoutAdditions(s: string): (r: string)
    ensures |r| <= |s|
    decreases |s|
  {
    if AdditionStart(s) == -1 then s
    else if AdditionEnd(s) == -1 then DeleteChars(s, "<")
    else WithoutAdditions(AdditionCut(s))
  }

  /** No `<<` survives `removeAdditions`. */
  lemma {:induction false} WithoutAdditionsClean(s: string)
    ensures !Contains(WithoutAdditions(s), "<<")
    decreases |s|
  {
    if AdditionStart(s) == -1 {
      FindIsContains(s, "<<");
    } else if AdditionEnd(s) == -1 {
      NoOccurrence(DeleteChars(s, "<"), "<<", '<');
    } else {
      WithoutAdditionsClean(AdditionCut(s));
    }
  }

  lemma AdditionCutAt(s: string, start: int, end: int)
    requires start == AdditionStart(s) && start != -1 && end == Find(s, ">>", start + 1)
    ensures end == AdditionEnd(s)
    ensures end != -1 ==> s[..start + 1] + s[end + 1..] == AdditionCut(s)
  {
  }

  /** `clean` terminates exactly when its erasure step does. */
  predicate CleanTerminates(line: string) {
    ErasuresTerminate(PreErasure(line))
  }

  /**
   * What `clean` computes. Whatever the input, the result holds none of the noise
   * characters `[]!?#*<>`.
   */
  function Cleaned(line: string): (r: string)
    requires CleanTerminates(line)
    ensures forall i :: 0 <= i < |r| ==> r[i] !in Noise
  {
    DeleteChars(Replace(WithoutAdditions(Erased(PreErasure(line))), "...", "x"), Noise)
  }

  /** Three dots starting at position `i`. */
  predicate DotsAt(s: string, i: nat) {
    i + 3 <= |s| && s[i] == '.' && s[i + 1] == '.' && s[i + 2] == '.'
  }

  lemma OccursDots(s: string, i: nat)
    ensures OccursAt(s, "...", i) <==> DotsAt(s, i)
  {
    if i + 3 <= |s| {
      assert s[i..i + 3][0] == s[i] && s[i..i + 3][1] == s[i + 1] && s[i..i + 3][2] == s[i + 2];
      if DotsAt(s, i) {
        assert s[i..i + 3] == "...";
      }
    }
  }

  /** After `replace('...', 'x')` no three dots are left, and a leading dot or two come from the input. */
  lemma {:induction false} EllipsisCollapsedAt(s: string)
    ensures forall i: nat :: !DotsAt(Replace(s, "...", "x"), i)
    ensures var r := Replace(s, "...", "x");
      |r| > 0 && r[0] == '.' ==> |s| > 0 && s[0] == '.' && !DotsAt(s, 0)
    ensures var r := Replace(s, "...", "x");
      |r| > 1 && r[0] == '.' && r[1] == '.' ==> |s| > 1 && s[1] == '.'
    decreases |s|
  {
    var r := Replace(s, "...", "x");
    OccursDots(s, 0);
    if OccursAt(s, "...", 0) {
      EllipsisCollapsedAt(s[3..]);
      var t := Replace(s[3..], "...", "x");
      assert r == "x" + t;
      forall i: nat ensures !DotsAt(r, i) {
        if i > 0 {
          assert !DotsAt(t, i - 1);
        }
      }
    } else if |s| > 0 {
      EllipsisCollapsedAt(s[1..]);
      var t := Replace(s[1..], "...", "x");
      assert r == [s[0]] + t;
      assert |t| > 0 && t[0] == '.' ==> s[1] == '.';
      assert |t| > 1 && t[0] == '.' && t[1] == '.' ==> s[2] == '.';
      forall i: nat ensures !DotsAt(r, i) {
        if i > 0 {
          assert !DotsAt(t, i - 1);
        }
      }
    }
  }

  /** Collapsing `...` to `x` leaves no `...` behind. */
  lemma EllipsisCollapsed(s: string)
    ensures !Contains(Replace(s, "...", "x"), "...")
  {
    var r := Replace(s, "...", "x");
    EllipsisCollapsedAt(s);
    forall i: nat ensures !OccursAt(r, "...", i) {
      OccursDots(r, i);
    }
  }

  /** The text `1 ..[.`: line number `1`, then two dots, a bracket and a dot. */
  const DotsSample := "1 ..[."

  lemma DotsSampleLineNumber()
    ensures DropLineNumber(DotsSample) == "..[."
  {
    var line := DotsSample;
    assert ' ' in line by { assert line[1] == ' '; }
    DropLineNumberIsTail(line);
    assert IndexOf(line, ' ') == 1 by { assert line[0] != ' '; }
    assert line[2..] == "..[.";
  }

  lemma DotsSampleCommas()
    ensures DropCommas("..[.") == "..[."
  {
    var t := "..[.";
    ReplaceAbsent(t, " , ", " ", ' ');
    assert !EndsWith(t, ",") by { assert t[3] != ','; }
  }

  lemma DotsSampleImplied()
    ensures Replace(RemoveImplied("..[."), "s,", "sz") == "..[."
  {
    var t := "..[.";
    RemoveImpliedKeepsPlainText(t);
    ReplaceAbsent(t, "s,", "sz", 's');
  }

  lemma DotsSampleBeforeErasure()
    ensures PreErasure(DotsSample) == "..[."
  {
    DotsSampleLineNumber();
    DotsSampleCommas();
    DotsSampleImplied();
  }

  lemma DeleteCharsCons(c: char, s: string, chars: string)
    ensures DeleteChars([c] + s, chars) == (if c in chars then [] else [c]) + DeleteChars(s, chars)
  {
    assert ([c] + s)[1..] == s;
  }

  lemma DotsSampleNoiseTail()
    ensures DeleteChars("[.", Noise) == "."
  {
    assert '.' !in Noise && '[' in Noise;
    DeleteCharsCons('.', "", Noise);
    assert "." == ['.'] + "";
    DeleteCharsCons('[', ".", Noise);
    assert "[." == ['['] + ".";
  }

  lemma DotsSampleNoise()
    ensures DeleteChars("..[.", Noise) == "..."
  {
    assert '.' !in Noise;
    DotsSampleNoiseTail();
    DeleteCharsCons('.', "[.", Noise);
    assert ".[." == ['.'] + "[.";
    DeleteCharsCons('.', ".[.", Noise);
    assert "..[." == ['.'] + ".[.";
  }

  lemma DotsSampleMiddle()
    ensures ErasuresTerminate("..[.") && Erased("..[.") == "..[."
    ensures WithoutAdditions("..[.") == "..[."
    ensures Replace("..[.", "...", "x") == "..[."
  {
    var t := "..[.";
    NoOccurrence(t, "!(", '!');
    NoOccurrence(t, "<<", '<');
    forall i: nat ensures !OccursAt(t, "...", i) {
      OccursDots(t, i);
      assert t[2] == '[';
    }
    ReplaceAbsentText(t, "...", "x");
  }

  /**
   * The `...` collapse happens before the noise is deleted, so deleting noise can
   * bring `...` back: `clean` on `1 ..[.` returns `...`.
   */
  lemma EllipsisCanReappear()
    ensures CleanTerminates(DotsSample)
    ensures Cleaned(DotsSample) == "..."
  {
    DotsSampleBeforeErasure();
    DotsSampleMiddle();
    DotsSampleNoise();
  }

  /** A pattern one of whose characters is missing from `s` does not occur in it. */
  lemma NoOccurrence(s: string, pat: string, c: char)
    requires c in pat && c !in s
    ensures forall i: nat :: !OccursAt(s, pat, i)
    ensures !Contains(s, pat) && Find(s, pat, 0) == -1
  {
    var j :| 0 <= j < |pat| && pat[j] == c;
    forall i: nat ensures !OccursAt(s, pat, i) {
      if i + |pat| <= |s| {
        assert s[i..i + |pat|][j] == s[i + j] != c;
      }
    }
    FindIsContains(s, pat);
  }

  /** `replace` leaves a string without the pattern unchanged. */
  lemma {:induction false} ReplaceAbsentText(s: string, pat: string, rep: string)
    requires |pat| > 0 && !Contains(s, pat)
    ensures Replace(s, pat, rep) == s
    decreases |s|
  {
    if |s| > 0 {
      assert !OccursAt(s, pat, 0);
      forall i: nat | i <= |s[1..]| ensures !OccursAt(s[1..], pat, i) {
        if i + |pat| <= |s[1..]| {
          assert s[1..][i..i + |pat|] == s[i + 1..i + 1 + |pat|];
          assert !OccursAt(s, pat, i + 1);
        }
      }
      ReplaceAbsentText(s[1..], pat, rep);
      assert s == [s[0]] + s[1..];
    }
  }

  lemma ReplaceAbsent(s: string, pat: string, rep: string, c: char)
    requires |pat| > 0 && c in pat && c !in s
    ensures Replace(s, pat, rep) == s
  {
    NoOccurrence(s, pat, c);
    ReplaceAbsentText(s, pat, rep);
  }

  // ---------------------------------------------------------------------------
  // Alignment of words with lemma tokens

  /** The lemma line without its `#lem:` marker: `lem[5:].strip()`. */
  function LemBody(lem: string): string {
    if |lem| >= 5 then Strip(lem[5..]) else ""
  }

  /** The constructor's treatment of the lemma argument: a non-empty one loses its marker. */
  function InitLem(lem: Option<string>): Option<string> {
    if lem.Some? && lem.value != "" then Some(LemBody(lem.value)) else lem
  }

  /** Python truthiness of `self.lem`. */
  predicate HasLem(lem: Option<string>) {
    lem.Some? && lem.value != ""
  }

  /** `[s.strip() for s in lem.split(';')]`. */
  function LemmaTokens(lem: string): (r: seq<string>)
    ensures |r| == |Split(lem, ';')|
  {
    var parts := Split(lem, ';');
    seq(|parts|, i requires 0 <= i < |parts| => Strip(parts[i]))
  }

  /** `%a` or `=`: the rest of the line is in another language. */
  predicate IsLangSwitch(w: string) {
    w == "%a" || w == "="
  }

  /** A word that `add_word` passes over: a bare colon or an inline-comment delimiter. */
  predicate IsSkipped(w: string) {
    w == ":" || Contains(w, "($") || Contains(w, "$)")
  }

  /** A word that closes an inline comment without opening another. */
  predicate IsCloser(w: string) {
    !Contains(w, "($") && Contains(w, "$)")
  }

  /** The `in_comment` flag after `add_word` has seen `w`. */
  function CommentAfter(w: string, inComment: bool): bool {
    if w == ":" then inComment
    else if Contains(w, "($") then true
    else if Contains(w, "$)") then false
    else inComment
  }

  /** What `add_word` appends to `self.words` for `w`. */
  function Emitted(w: string, token: string, inComment: bool): seq<WordEntry> {
    if IsSkipped(w) || inComment then [] else [WordEntry(w, Split(token, '|'))]
  }

  /** The entries recorded by the alignment loop from position `i` on, with comment flag `inComment`. */
  function Align(ws: seq<string>, lt: seq<string>, i: nat, inComment: bool): seq<WordEntry>
    requires |ws| == |lt| && i <= |ws|
    decreases |ws| - i
  {
    if i == |ws| || IsLangSwitch(ws[i]) then []
    else Emitted(ws[i], lt[i], inComment) + Align(ws, lt, i + 1, CommentAfter(ws[i], inComment))
  }

  /** The positions from `i` on whose words the alignment loop records, left to right. */
  function Selected(ws: seq<string>, i: nat, c: bool): (idx: seq<nat>)
    requires i <= |ws|
    ensures |idx| <= |ws| - i
    ensures forall k :: 0 <= k < |idx| ==> i <= idx[k] < |ws|
    ensures forall k, m :: 0 <= k < m < |idx| ==> idx[k] < idx[m]
    decreases |ws| - i
  {
    if i == |ws| || IsLangSwitch(ws[i]) then []
    else (if IsSkipped(ws[i]) || c then [] else [i]) + Selected(ws, i + 1, CommentAfter(ws[i], c))
  }

  /** The alignment records exactly one entry per selected position. */
  lemma {:induction false} AlignLength(ws: seq<string>, lt: seq<string>, i: nat, c: bool)
    requires |ws| == |lt| && i <= |ws|
    ensures |Align(ws, lt, i, c)| == |Selected(ws, i, c)|
    decreases |ws| - i
  {
    if i < |ws| && !IsLangSwitch(ws[i]) {
      AlignLength(ws, lt, i + 1, CommentAfter(ws[i], c));
    }
  }

  /** A word the alignment records at position i comes first. */
  lemma AlignHead(ws: seq<string>, lt: seq<string>, i: nat, c: bool)
    requires |ws| == |lt| && i < |ws| && !IsLangSwitch(ws[i]) && !(IsSkipped(ws[i]) || c)
    ensures |Selected(ws, i, c)| > 0 && Selected(ws, i, c)[0] == i
    ensures |Align(ws, lt, i, c)| > 0 && Align(ws, lt, i, c)[0] == WordEntry(ws[i], Split(lt[i], '|'))
  {
    assert Emitted(ws[i], lt[i], c) == [WordEntry(ws[i], Split(lt[i], '|'))];
  }

  /** Entry k of the alignment, for one k. */
  lemma {:induction false} AlignAt(ws: seq<string>, lt: seq<string>, i: nat, c: bool, k: nat)
    requires |ws| == |lt| && i <= |ws| && k < |Selected(ws, i, c)|
    ensures k < |Align(ws, lt, i, c)|
    ensures Align(ws, lt, i, c)[k] == WordEntry(ws[Selected(ws, i, c)[k]], Split(lt[Selected(ws, i, c)[k]], '|'))
    decreases |ws| - i
  {
    AlignLength(ws, lt, i, c);
    var c' := CommentAfter(ws[i], c);
    if !(IsSkipped(ws[i]) || c) && k == 0 {
      AlignHead(ws, lt, i, c);
    } else {
      var d := if IsSkipped(ws[i]) || c then 0 else 1;
      AlignAt(ws, lt, i + 1, c', k - d);
      AlignTail(ws, lt, i, c, k);
    }
  }

  /** Past the word at position i, entry k of the alignment is entry k - d of the rest, d being what position i recorded. */
  lemma AlignTail(ws: seq<string>, lt: seq<string>, i: nat, c: bool, k: nat)
    requires |ws| == |lt| && i <= |ws| && k < |Selected(ws, i, c)| && |Align(ws, lt, i, c)| == |Selected(ws, i, c)|
    requires !(IsSkipped(ws[i]) || c) ==> k > 0
    ensures var d := if IsSkipped(ws[i]) || c then 0 else 1;
      var c' := CommentAfter(ws[i], c);
      k - d < |Selected(ws, i + 1, c')| && k - d < |Align(ws, lt, i + 1, c')| &&
      Selected(ws, i, c)[k] == Selected(ws, i + 1, c')[k - d] && Align(ws, lt, i, c)[k] == Align(ws, lt, i + 1, c')[k - d]
  {
  }

  /** Entry k of the alignment is word `Selected[k]` paired with its own lemma token, split on `|`. */
  lemma AlignIsSelection(ws: seq<string>, lt: seq<string>, i: nat, c: bool)
    requires |ws| == |lt| && i <= |ws|
    ensures |Align(ws, lt, i, c)| == |Selected(ws, i, c)|
    ensures forall k :: 0 <= k < |Selected(ws, i, c)| ==>
      Align(ws, lt, i, c)[k] == WordEntry(ws[Selected(ws, i, c)[k]], Split(lt[Selected(ws, i, c)[k]], '|'))
  {
    AlignLength(ws, lt, i, c);
    forall k | 0 <= k < |Selected(ws, i, c)|
      ensures Align(ws, lt, i, c)[k] == WordEntry(ws[Selected(ws, i, c)[k]], Split(lt[Selected(ws, i, c)[k]], '|'))
    {
      AlignAt(ws, lt, i, c, k);
    }
  }

  /** No selected word is a colon or a comment delimiter, and no language switch precedes one. */
  lemma {:induction false} SelectedWordsKept(ws: seq<string>, i: nat, c: bool)
    requires i <= |ws|
    ensures forall k :: 0 <= k < |Selected(ws, i, c)| ==> !IsSkipped(ws[Selected(ws, i, c)[k]])
    ensures forall k, j :: 0 <= k < |Selected(ws, i, c)| && i <= j <= Selected(ws, i, c)[k] ==>
      !IsLangSwitch(ws[j])
    decreases |ws| - i
  {
    if i < |ws| && !IsLangSwitch(ws[i]) {
      SelectedWordsKept(ws, i + 1, CommentAfter(ws[i], c));
    }
  }

  /** Inside an open comment nothing is selected before a word that closes it. */
  lemma {:induction false} CloserBefore(ws: seq<string>, i: nat, k: nat) returns (m: nat)
    requires i <= |ws| && k < |Selected(ws, i, true)|
    ensures i <= m < Selected(ws, i, true)[k] && IsCloser(ws[m])
    decreases |ws| - i
  {
    var w := ws[i];
    var tail := Selected(ws, i + 1, CommentAfter(w, true));
    assert Selected(ws, i, true) == tail;
    if IsCloser(w) {
      m := i;
    } else {
      assert CommentAfter(w, true);
      m := CloserBefore(ws, i + 1, k);
    }
  }

  /** A word holding `($` is passed over and leaves the comment open. */
  lemma OpenerOpens(w: string)
    requires Contains(w, "($")
    ensures w != ":" && IsSkipped(w) && !IsCloser(w)
    ensures forall c :: CommentAfter(w, c)
  {
    var i: nat :| i <= |w| && OccursAt(w, "($", i);
  }

  /** A comment opened at word j before selected position k is closed between the two. */
  lemma {:induction false} OpenerClosed(ws: seq<string>, i: nat, c: bool, k: nat, j: nat) returns (m: nat)
    requires i <= |ws| && k < |Selected(ws, i, c)|
    requires i <= j < Selected(ws, i, c)[k] && Contains(ws[j], "($")
    ensures j < m < Selected(ws, i, c)[k] && IsCloser(ws[m])
    decreases |ws| - i
  {
    var w := ws[i];
    var c' := CommentAfter(w, c);
    var e: seq<nat> := if IsSkipped(w) || c then [] else [i];
    var tail := Selected(ws, i + 1, c');
    assert Selected(ws, i, c) == e + tail;
    assert Selected(ws, i, c)[k] == tail[k - |e|];
    if j == i {
      OpenerOpens(w);
      m := CloserBefore(ws, i + 1, k);
    } else {
      m := OpenerClosed(ws, i + 1, c', k - |e|, j);
    }
  }

  /** No selected word lies inside an inline comment: every `($` before it is closed by a `$)` word in between. */
  lemma SelectedOutsideComments(ws: seq<string>, i: nat, c: bool)
    requires i <= |ws|
    ensures forall k, j :: 0 <= k < |Selected(ws, i, c)| && i <= j < Selected(ws, i, c)[k] && Contains(ws[j], "($") ==>
      exists m :: j < m < Selected(ws, i, c)[k] && IsCloser(ws[m])
  {
    forall k, j | 0 <= k < |Selected(ws, i, c)| && i <= j < Selected(ws, i, c)[k] && Contains(ws[j], "($")
      ensures exists m :: j < m < Selected(ws, i, c)[k] && IsCloser(ws[m])
    {
      var m := OpenerClosed(ws, i, c, k, j);
      assert j < m < Selected(ws, i, c)[k] && IsCloser(ws[m]);
    }
  }

  // ---------------------------------------------------------------------------
  // Damage

  /** A word showing the damage placeholder `x`: alone, next to a hyphen, or next to a determinative brace. */
  predicate IsDamagedWord(w: string) {
    w == "x" || Contains(w, "-x") || Contains(w, "x-") || Contains(w, "}x") || Contains(w, "x{")
  }

  /** Some recorded word is damaged. */
  predicate AnyDamaged(ws: seq<WordEntry>) {
    exists k :: 0 <= k < |ws| && IsDamagedWord(ws[k].word)
  }

  /** Damaged, and no damaged word carries the `u` (unlemmatisable) tag. */
  predicate DamagedAndTagged(ws: seq<WordEntry>) {
    AnyDamaged(ws) && forall k :: 0 <= k < |ws| && IsDamagedWord(ws[k].word) ==> "u" !in ws[k].lemmata
  }

  // ---------------------------------------------------------------------------
  // The parsed record

  /** `parse` on a line whose lemma field is already initialised. */
  function ParseRecord(text: string, lem: Option<string>): Record
    requires HasLem(lem) ==> text != [] && (text[0] !in Comment && '_' !in text ==> CleanTerminates(text))
  {
    if !HasLem(lem) then Record(text, lem, true, [], false, false)
    else if text[0] in Comment then Record(text, None, true, [], false, false)
    else if '_' in text then Record(text, None, false, [], false, false)
    else AlignedRecord(Cleaned(text), lem.value)
  }

  /** The record of a cleaned, lemmatised text line: word and token counts decide validity, then alignment and damage scan. */
  function AlignedRecord(cleaned: string, lem: string): Record {
    var ws := Words(cleaned);
    var lt := LemmaTokens(lem);
    if |ws| != |lt| then Record(cleaned, Some(lem), false, [], false, false)
    else
      var entries := Align(ws, lt, 0, false);
      Record(cleaned, Some(lem), true, entries, AnyDamaged(entries), DamagedAndTagged(entries))
  }

  lemma ParseRecordCleaned(text: string, lem: Option<string>)
    requires HasLem(lem) && text != [] && text[0] !in Comment && '_' !in text && CleanTerminates(text)
    ensures ParseRecord(text, lem) == AlignedRecord(Cleaned(text), lem.value)
  {
  }

  /** The source terminates without an exception on this pair: a lemmatised text line is non-empty, and its erasures close. */
  predicate Parsable(text: string, lem: Option<string>) {
    var l := InitLem(lem);
    HasLem(l) ==> text != [] && (text[0] !in Comment && '_' !in text ==> CleanTerminates(text))
  }

  /** `Line(text, lem)`: the state a freshly constructed line ends in. */
  function ParseLine(text: string, lem: Option<string>): Record
    requires Parsable(text, lem)
  {
    ParseRecord(text, InitLem(lem))
  }

  /** `get_lemmata`: the lemmata of the first recorded occurrence of `word`, if any. */
  function LemmataOf(ws: seq<WordEntry>, word: string): (r: Option<seq<string>>)
    ensures r.None? <==> forall k :: 0 <= k < |ws| ==> ws[k].word != word
    ensures r.Some? ==>
      exists k :: 0 <= k < |ws| && ws[k].word == word && r.value == ws[k].lemmata &&
        (forall j :: 0 <= j < k ==> ws[j].word != word)
  {
    if |ws| == 0 then None
    else if ws[0].word == word then Some(ws[0].lemmata)
    else
      var r := LemmataOf(ws[1..], word);
      assert forall k :: 1 <= k < |ws| ==> ws[k] == ws[1..][k - 1];
      r
  }

  /** Lines without a lemma, comments and directives need no alignment; `_` (Akkadian) rejects the line. */
  lemma UnalignedLines(text: string, lem: Option<string>)
    requires Parsable(text, lem)
    ensures var r := ParseLine(text, lem);
      !HasLem(InitLem(lem)) ==> r.valid && r.words == [] && !r.damaged
    ensures var r := ParseLine(text, lem);
      HasLem(InitLem(lem)) && text[0] in Comment ==> r.valid && r.words == [] && r.lem == None
    ensures var r := ParseLine(text, lem);
      HasLem(InitLem(lem)) && text[0] !in Comment && '_' in text ==> !r.valid && r.words == [] && r.lem == None
  {
  }

  /** A lemmatised text line is parsed from its cleaned text. */
  lemma LemmatisedLineIsCleaned(text: string, lem: Option<string>)
    requires Parsable(text, lem) && HasLem(InitLem(lem)) && text[0] !in Comment && '_' !in text
    ensures ParseLine(text, lem) == AlignedRecord(Cleaned(text), InitLem(lem).value)
    ensures ParseLine(text, lem).line == Cleaned(text)
  {
  }

  /** A cleaned line is valid exactly when its words and its lemma tokens are equally many. */
  lemma ValidIffCountsMatch(cleaned: string, lem: string)
    ensures AlignedRecord(cleaned, lem).valid <==> |Words(cleaned)| == |Split(lem, ';')|
    ensures !AlignedRecord(cleaned, lem).valid ==> AlignedRecord(cleaned, lem).words == []
  {
  }

  /**
   * The words of a valid line are a left-to-right selection of the cleaned words,
   * each with its own lemma token split on `|`: never more words than lemma tokens,
   * no colon, no comment delimiter, nothing from a language switch on, nothing
   * inside a `($ ... $)` comment.
   */
  lemma ValidLineWords(cleaned: string, lem: string) returns (idx: seq<nat>)
    requires AlignedRecord(cleaned, lem).valid
    ensures |Words(cleaned)| == |LemmaTokens(lem)|
    ensures |idx| == |AlignedRecord(cleaned, lem).words| <= |LemmaTokens(lem)|
    ensures forall k :: 0 <= k < |idx| ==> idx[k] < |Words(cleaned)|
    ensures forall k :: 0 <= k < |idx| ==>
      AlignedRecord(cleaned, lem).words[k] ==
        WordEntry(Words(cleaned)[idx[k]], Split(LemmaTokens(lem)[idx[k]], '|'))
    ensures forall k, m :: 0 <= k < m < |idx| ==> idx[k] < idx[m]
    ensures forall k :: 0 <= k < |idx| ==> !IsSkipped(AlignedRecord(cleaned, lem).words[k].word)
    ensures forall k, j :: 0 <= k < |idx| && 0 <= j <= idx[k] ==> !IsLangSwitch(Words(cleaned)[j])
    ensures forall k, j :: 0 <= k < |idx| && 0 <= j < idx[k] && Contains(Words(cleaned)[j], "($") ==>
      exists m :: j < m < idx[k] && IsCloser(Words(cleaned)[m])
  {
    var ws := Words(cleaned);
    var lt := LemmaTokens(lem);
    assert AlignedRecord(cleaned, lem).words == Align(ws, lt, 0, false);
    idx := Selected(ws, 0, false);
    AlignIsSelection(ws, lt, 0, false);
    SelectedWordsKept(ws, 0, false);
    SelectedOutsideComments(ws, 0, false);
  }

  /** The damage flags: `damaged_and_tagged` implies `damaged`, and both need a valid, aligned line. */
  lemma DamageFlags(text: string, lem: Option<string>)
    requires Parsable(text, lem)
    ensures var r := ParseLine(text, lem);
      (r.damagedAndTagged ==> r.damaged) && (r.damaged ==> r.valid && HasLem(r.lem))
    ensures var r := ParseLine(text, lem);
      r.damaged <==> r.valid && AnyDamaged(r.words)
    ensures var r := ParseLine(text, lem);
      r.damagedAndTagged <==> r.valid && DamagedAndTagged(r.words)
  {
  }

  // ---------------------------------------------------------------------------
  // The imperative `Line` object

  class Line {
    var line: string
    var lem: Option<string>
    var valid: bool
    var damaged: bool
    var damagedAndTagged: bool
    var words: seq<WordEntry>

    function AsRecord(): Record
      reads this
    {
      Record(line, lem, valid, words, damaged, damagedAndTagged)
    }

    /** `Line(line, lem)`: stores the pair, strips the `#lem:` marker and parses. */
    constructor (text: string, lemLine: Option<string>)
      requires Parsable(text, lemLine)
      ensures AsRecord() == ParseLine(text, lemLine)
    {
      line := text;
      lem := lemLine;
      valid := false;
      damaged := false;
      damagedAndTagged := false;
      if lemLine.Some? && lemLine.value != "" {
        lem := Some(LemBody(lemLine.value));
      }
      words := [];
      new;
      Parse();
    }

    /** `parse`: short cuts for unlemmatised, comment and Akkadian lines, then clean, count, align, scan. */
    method Parse()
      requires words == [] && !damaged && !damagedAndTagged
      requires HasLem(lem) ==> line != [] && (line[0] !in Comment && '_' !in line ==> CleanTerminates(line))
      modifies this
      ensures AsRecord() == ParseRecord(old(line), old(lem))
    {
      if !HasLem(lem) {
        valid := true;
        return;
      }
      if line[0] in Comment {
        valid := true;
        lem := None;
        return;
      }
      if '_' in line {
        valid := false;
        lem := None;
        return;
      }
      ghost var text := line;
      line := Clean(line);
      // `s.strip()` on each whitespace-separated word changes nothing, so it is left out.
      var ws := Words(line);
      var lemtok := LemmaTokens(lem.value);
      valid := |ws| == |lemtok|;
      ParseRecordCleaned(text, lem);
      if valid {
        AddWords(ws, lemtok);
        ScanForDamage();
      }
    }

    /** The word loop of `parse`: `add_word` on each word with its lemma token, up to a language switch. */
    method AddWords(ws: seq<string>, lemtok: seq<string>)
      requires |ws| == |lemtok|
      modifies this`words
      ensures words == old(words) + Align(ws, lemtok, 0, false)
    {
      var inComment := false;
      var i := 0;
      while i < |ws|
        invariant 0 <= i <= |ws|
        invariant words + Align(ws, lemtok, i, inComment) == old(words) + Align(ws, lemtok, 0, false)
      {
        if IsLangSwitch(ws[i]) {
          assert Align(ws, lemtok, i, inComment) == [];
          break;
        }
        ghost var before, c := words, inComment;
        ghost var rest := Align(ws, lemtok, i + 1, CommentAfter(ws[i], c));
        assert Align(ws, lemtok, i, c) == Emitted(ws[i], lemtok[i], c) + rest;
        inComment := AddWord(ws[i], lemtok[i], inComment);
        assert words + rest == before + (Emitted(ws[i], lemtok[i], c) + rest);
        i := i + 1;
      }
    }

    /** `add_word`: skips colons and comment tokens, otherwise records the word with its lemmata. */
    method AddWord(word: string, tokens: string, inComment: bool) returns (now: bool)
      modifies this`words
      ensures words == old(words) + Emitted(word, tokens, inComment)
      ensures now == CommentAfter(word, inComment)
    {
      if word == ":" {
        return inComment;
      }
      if Contains(word, "($") {
        return true;
      }
      if Contains(word, "$)") {
        return false;
      }
      if inComment {
        return true;
      }
      var parts := Split(tokens, '|');
      var elements: seq<string> := [];
      var k := 0;
      while k < |parts|
        invariant 0 <= k <= |parts| && elements == parts[..k]
      {
        elements := elements + [parts[k]];
        k := k + 1;
      }
      assert elements == parts;
      words := words + [WordEntry(word, elements)];
      return false;
    }

    /** `scan_for_damage`: stops at the first damaged word tagged `u`, which fixes the second flag at false. */
    method ScanForDamage()
      modifies this`damaged, this`damagedAndTagged
      ensures damaged == AnyDamaged(words)
      ensures damagedAndTagged == DamagedAndTagged(words)
    {
      damaged := false;
      damagedAndTagged := false;
      var i := 0;
      while i < |words|
        invariant 0 <= i <= |words|
        invariant damaged == AnyDamaged(words[..i])
        invariant damagedAndTagged == damaged
        invariant forall k :: 0 <= k < i && IsDamagedWord(words[k].word) ==> "u" !in words[k].lemmata
      {
        var entry := words[i];
        if IsDamagedWord(entry.word) {
          damaged := true;
          if "u" !in entry.lemmata {
            damagedAndTagged := true;
          } else {
            damagedAndTagged := false;
            return;
          }
        }
        assert words[..i + 1] == words[..i] + [entry];
        i := i + 1;
      }
      assert words[..i] == words;
    }

    /** `clean`: the cleaning pipeline, calling the two loop methods for erasures and additions. */
    static method Clean(text: string) returns (r: string)
      requires CleanTerminates(text)
      ensures r == Cleaned(text)
    {
      r := Join(Split(text, ' ')[1..], " ");
      r := Replace(r, " , ", " ");
      if EndsWith(r, ",") {
        r := r[..|r| - 1];
      }
      r := RemoveImplied(r);
      r := Replace(r, "s,", "sz");
      r := RemoveErasures(r);
      r := RemoveAdditions(r);
      r := Replace(r, "...", "x");
      r := DeleteChars(r, Noise);
    }

    /** `removeAdditions`: each pass cuts at least two characters, so the loop ends. */
    static method RemoveAdditions(text: string) returns (r: string)
      ensures r == WithoutAdditions(text)
      ensures !Contains(r, "<<")
    {
      WithoutAdditionsClean(text);
      r := text;
      var start := Find(r, "<<", 0);
      while start != -1
        invariant start == AdditionStart(r)
        invariant WithoutAdditions(r) == WithoutAdditions(text)
        decreases |r|
      {
        var end := Find(r, ">>", start + 1);
        AdditionCutAt(r, start, end);
        if end == -1 {
          r := DeleteChars(r, "<");
          return;
        }
        r := r[..start + 1] + r[end + 1..];
        start := Find(r, "<<", 0);
      }
    }

    /** `removeErasures`: terminates only under `ErasuresTerminate`; otherwise the source loops forever. */
    static method RemoveErasures(text: string) returns (r: string)
      requires ErasuresTerminate(text)
      ensures r == Erased(text)
    {
      r := text;
      var start := Find(r, "!(", 0);
      while start != -1
        invariant start == ErasureStart(r)
        invariant ErasuresTerminate(r) && Erased(r) == Erased(text)
        decreases |r|
      {
        // The source only cuts when a `)` follows; `ErasuresTerminate` guarantees one.
        var end := Find(r, ")", start + 1);
        ErasureStep(r);
        ErasureCutAt(r, start, end);
        r := r[..start + 1] + r[end + 1..];
        start := Find(r, "!(", 0);
      }
    }
  }
}
