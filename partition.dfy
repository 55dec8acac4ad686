/**
 * Splitting a tagged corpus into a training part and two testing parts
 * (partition_corpus.py). Tablets are dealt out in a fixed cycle of
 * `trainmax` training tablets followed by `testmax` testing tablets, and each
 * output keeps only the lines whose damage it accepts.
 */
module Partition {
  import opened Strings
  import opened Streams
  import Segment

  /** DMG_NONE, DMG_RECOVERABLE and DMG_UNRECOVERABLE. */
  datatype Damage = Undamaged | Recoverable | Unrecoverable

  /** The damage a `<l` line declares, or the previous state when it declares none of the three. */
  function Declared(line: string, prev: Option<Damage>): (r: Option<Damage>)
    ensures Contains(line, "damaged=\"False\"") ==> r == Some(Undamaged)
    ensures r.None? ==> prev.None?
    ensures (!Contains(line, "damaged=\"False\"") && !Contains(line, "damaged=\"recoverable\"")
             && !Contains(line, "damaged=\"unrecoverable\"")) ==> r == prev
    ensures r != prev ==> r.Some?
  {
    if Contains(line, "damaged=\"False\"") then Some(Undamaged)
    else if Contains(line, "damaged=\"recoverable\"") then Some(Recoverable)
    else if Contains(line, "damaged=\"unrecoverable\"") then Some(Unrecoverable)
    else prev
  }

  /** The damage state after reading `line`: only `<l` lines change it. */
  function NextState(state: Option<Damage>, line: string): Option<Damage> {
    if StartsWith(line, "<l") then Declared(line, state) else state
  }

  /** The damage state after reading `lines` one by one. */
  function StateAfter(state: Option<Damage>, lines: seq<string>): Option<Damage>
    decreases |lines|
  {
    if |lines| == 0 then state else StateAfter(NextState(state, lines[0]), lines[1..])
  }

  /** How a line is stored in the tablet: a `<l` line loses its attributes. */
  function Shown(line: string): string {
    if StartsWith(line, "<l") then "<l>\n" else line
  }

  /**
   * The outcome of one `get_next_tablet` call: no tablet (end of input), a
   * tablet and the number of lines it read, or an `UnboundLocalError` because a
   * line needed the damage state before any `<l` line set it.
   */
  datatype Outcome = Exhausted | Got(tablet: seq<(string, Damage)>, used: nat) | Unbound

  /** The closing blank line of every tablet. */
  const Closing: (string, Damage) := ("\n", Undamaged)

  /** The rest of a tablet, once at least one line has been read. */
  function Body(rest: seq<string>, state: Option<Damage>): (r: Outcome)
    ensures r.Got? ==> r.used <= |rest| && (rest != [] ==> r.used > 0)
    ensures r.Got? ==> |r.tablet| > 0 && r.tablet[|r.tablet| - 1] == Closing
    ensures !r.Exhausted?
    decreases |rest|
  {
    if rest == [] then Got([Closing], 0)
    else if rest[0] == "\n" then Got([Closing], 1)
    else
      var s := NextState(state, rest[0]);
      if s.None? then Unbound
      else
        var r := Body(rest[1..], s);
        if r.Got? then Got([(Shown(rest[0]), s.value)] + r.tablet, r.used + 1) else Unbound
  }

  /** `get_next_tablet` on the unread lines `rest`. */
  function NextTablet(rest: seq<string>): (r: Outcome)
    ensures r.Exhausted? <==> rest == []
    ensures r.Got? ==> 0 < r.used <= |rest|
    ensures r.Got? ==> |r.tablet| > 0 && r.tablet[|r.tablet| - 1] == Closing
  {
    if rest == [] then Exhausted else Body(rest, None)
  }

  /** Once the damage state is set it stays set, so a tablet can fail only before its first line is stored. */
  lemma {:induction false} BodyBound(rest: seq<string>, state: Option<Damage>)
    requires state.Some?
    ensures Body(rest, state).Got?
    decreases |rest|
  {
    if rest != [] && rest[0] != "\n" {
      BodyBound(rest[1..], NextState(state, rest[0]));
    }
  }

  /**
   * `get_next_tablet` fails exactly when the first line of a tablet is not a
   * blank line and leaves the damage state unset: it is not a `<l` line, or it
   * is one that declares none of the three damage attributes.
   */
  lemma FirstLineDecides(rest: seq<string>)
    requires rest != []
    ensures NextTablet(rest).Unbound? <==> rest[0] != "\n" && NextState(None, rest[0]).None?
  {
    if rest[0] != "\n" && NextState(None, rest[0]).Some? {
      BodyBound(rest[1..], NextState(None, rest[0]));
    }
  }

  /** A tablet ends at the first blank line, or at the end of the input with a synthesized one. */
  lemma {:induction false} BodyUsed(rest: seq<string>, state: Option<Damage>)
    requires Body(rest, state).Got?
    ensures |Body(rest, state).tablet| - 1 <= Body(rest, state).used <= |Body(rest, state).tablet|
    ensures Body(rest, state).used == |Body(rest, state).tablet| ==> rest[Body(rest, state).used - 1] == "\n"
    ensures Body(rest, state).used < |Body(rest, state).tablet| ==> Body(rest, state).used == |rest|
    decreases |rest|
  {
    if rest != [] && rest[0] != "\n" {
      var s := NextState(state, rest[0]);
      BodyUsed(rest[1..], s);
      var r' := Body(rest[1..], s);
      if r'.used > 0 {
        assert rest[1..][r'.used - 1] == rest[Body(rest, state).used - 1];
      }
    }
  }

  /**
   * Line `i` of a tablet, before its closing blank line, is input line `i`,
   * shown, with the damage state in force after it: the attribute of the
   * latest `<l` line. Only `<l` lines are rewritten.
   */
  lemma {:induction false} BodyEntry(rest: seq<string>, state: Option<Damage>, i: nat)
    requires Body(rest, state).Got? && i < |Body(rest, state).tablet| - 1
    ensures i < |rest| && rest[i] != "\n" && StateAfter(state, rest[..i + 1]).Some?
    ensures Body(rest, state).tablet[i] == (Shown(rest[i]), StateAfter(state, rest[..i + 1]).value)
    decreases i
  {
    BodyUsed(rest, state);
    assert rest != [] && rest[0] != "\n";
    var s := NextState(state, rest[0]);
    assert rest[..i + 1][0] == rest[0];
    assert rest[..i + 1][1..] == rest[1..][..i];
    if i > 0 {
      BodyEntry(rest[1..], s, i - 1);
    }
  }

  /** All tablets after the header, and whether reading them ended in an `UnboundLocalError`. */
  function Tablets(rest: seq<string>): (seq<seq<(string, Damage)>>, bool)
    decreases |rest|
  {
    match NextTablet(rest)
    case Exhausted => ([], false)
    case Unbound => ([], true)
    case Got(t, used) =>
      var (ts, crashed) := Tablets(rest[used..]);
      ([t] + ts, crashed)
  }

  /** The text lines of a tablet, ignoring damage. */
  function Texts(t: seq<(string, Damage)>): seq<string> {
    if |t| == 0 then [] else [t[0].0] + Texts(t[1..])
  }

  function FlattenTexts(ts: seq<seq<(string, Damage)>>): seq<string> {
    if |ts| == 0 then [] else Texts(ts[0]) + FlattenTexts(ts[1..])
  }

  lemma {:induction false} TextsAppend(a: seq<(string, Damage)>, b: seq<(string, Damage)>)
    ensures Texts(a + b) == Texts(a) + Texts(b)
    decreases |a|
  {
    if |a| == 0 {
      assert a + b == b;
    } else {
      assert (a + b)[1..] == a[1..] + b;
      TextsAppend(a[1..], b);
    }
  }

  /** The lines after the header as the tablets store them: `<l` lines lose their attributes. */
  function ShownAll(lines: seq<string>): seq<string> {
    if |lines| == 0 then [] else [Shown(lines[0])] + ShownAll(lines[1..])
  }

  lemma {:induction false} ShownAllAppend(a: seq<string>, b: seq<string>)
    ensures ShownAll(a + b) == ShownAll(a) + ShownAll(b)
    decreases |a|
  {
    if |a| == 0 {
      assert a + b == b;
    } else {
      assert (a + b)[1..] == a[1..] + b;
      ShownAllAppend(a[1..], b);
    }
  }

  /**
   * The text of one tablet: the lines it read, shown, followed by a synthesized
   * blank line exactly when the input ran out before a blank line.
   */
  lemma TabletTexts(rest: seq<string>, t: seq<(string, Damage)>, used: nat)
    requires NextTablet(rest) == Got(t, used)
    ensures Texts(t) == ShownAll(rest[..used]) + (if used < |t| then ["\n"] else [])
    ensures used < |t| <==> used == |rest| && Segment.Unterminated(rest)
  {
    TabletLines(rest, t, used);
    ClosedTexts(rest, t, used);
    ClosedSynthesized(rest, t, used);
  }

  /** The lines of a tablet before its closing blank line are the input lines, shown. */
  lemma TabletLines(rest: seq<string>, t: seq<(string, Damage)>, used: nat)
    requires NextTablet(rest) == Got(t, used)
    ensures 0 < |t| && |t| - 1 <= used <= |t| && used <= |rest|
    ensures t[|t| - 1] == Closing
    ensures Texts(t[..|t| - 1]) == ShownAll(rest[..|t| - 1])
    ensures used < |t| ==> used == |rest| && used > 0 && rest[used - 1] != "\n"
    ensures used == |t| ==> rest[used - 1] == "\n"
  {
    BodyUsed(rest, None);
    var n := |t| - 1;
    forall i | 0 <= i < n ensures i < |rest| && t[i].0 == Shown(rest[i]) && rest[i] != "\n" {
      BodyEntry(rest, None, i);
    }
    TextsOfPrefix(rest, t, n);
  }

  /** A tablet's text from its lines: the shown input lines and the closing blank line, read or synthesized. */
  lemma ClosedTexts(rest: seq<string>, t: seq<(string, Damage)>, used: nat)
    requires 0 < |t| && |t| - 1 <= used <= |t| && used <= |rest|
    requires t[|t| - 1] == Closing
    requires Texts(t[..|t| - 1]) == ShownAll(rest[..|t| - 1])
    requires used == |t| ==> rest[used - 1] == "\n"
    ensures Texts(t) == ShownAll(rest[..used]) + (if used < |t| then ["\n"] else [])
  {
    var n := |t| - 1;
    TakeAll(t);
    TakeSnoc(t, n);
    TextsAppend(t[..n], [Closing]);
    assert Texts([Closing]) == ["\n"];
    if used == |t| {
      TakeSnoc(rest, n);
      ShownAllAppend(rest[..n], ["\n"]);
    }
  }

  /** The closing blank line is synthesized exactly when the input ran out without one. */
  lemma ClosedSynthesized(rest: seq<string>, t: seq<(string, Damage)>, used: nat)
    requires 0 < |t| && |t| - 1 <= used <= |t| && used <= |rest|
    requires used < |t| ==> used == |rest| && used > 0 && rest[used - 1] != "\n"
    requires used == |t| ==> rest[used - 1] == "\n"
    ensures used < |t| <==> used == |rest| && Segment.Unterminated(rest)
  {
  }

  lemma {:induction false} TextsOfPrefix(rest: seq<string>, t: seq<(string, Damage)>, n: nat)
    requires n <= |t| && n <= |rest|
    requires forall i :: 0 <= i < n ==> t[i].0 == Shown(rest[i])
    ensures Texts(t[..n]) == ShownAll(rest[..n])
    decreases n
  {
    if n > 0 {
      TextsOfPrefix(rest, t, n - 1);
      assert t[..n] == t[..n - 1] + [t[n - 1]];
      assert rest[..n] == rest[..n - 1] + [rest[n - 1]];
      TextsAppend(t[..n - 1], [t[n - 1]]);
      ShownAllAppend(rest[..n - 1], [rest[n - 1]]);
    }
  }

  /**
   * Every line after the header appears in exactly one tablet, in order, and
   * only `<l` lines are rewritten: the tablets' texts are the input, shown,
   * up to where reading stopped, plus one synthesized blank line when the input
   * did not end in one. Without a failure reading stops at the end of the input.
   */
  lemma {:induction false} TabletsCover(rest: seq<string>)
    ensures !Tablets(rest).1 ==>
      FlattenTexts(Tablets(rest).0) == ShownAll(rest) + (if Segment.Unterminated(rest) then ["\n"] else [])
    decreases |rest|
  {
    var r := NextTablet(rest);
    if r.Got? && !Tablets(rest).1 {
      var t, used := r.tablet, r.used;
      var later := rest[used..];
      TabletTexts(rest, t, used);
      TabletsCover(later);
      TabletsUnfold(rest, t, used);
      TakeDrop(rest, used);
      ShownAllAppend(rest[..used], later);
      var synthesized: seq<string> := if used < |t| then ["\n"] else [];
      var extra: seq<string> := if Segment.Unterminated(rest) then ["\n"] else [];
      var extraLater: seq<string> := if Segment.Unterminated(later) then ["\n"] else [];
      if used < |rest| {
        assert Segment.Unterminated(later) == Segment.Unterminated(rest);
      } else {
        assert later == [];
      }
      CoverJoin(FlattenTexts(Tablets(rest).0), Texts(t), FlattenTexts(Tablets(later).0), ShownAll(rest[..used]),
                synthesized, ShownAll(later), extraLater, ShownAll(rest), extra);
    } else if r.Exhausted? {
      assert rest == [];
    }
  }

  /** How the texts of the first tablet and of the rest add up to the whole input. */
  lemma CoverJoin(all: seq<string>, first: seq<string>, others: seq<string>, head: seq<string>, synthesized: seq<string>,
                  shownLater: seq<string>, extraLater: seq<string>, shown: seq<string>, extra: seq<string>)
    requires all == first + others && first == head + synthesized
    requires others == shownLater + extraLater && shown == head + shownLater
    requires (synthesized == [] && extraLater == extra) || (shownLater == [] && extraLater == [] && synthesized == extra)
    ensures all == shown + extra
  {
    if synthesized == [] {
      assert first == head;
    } else {
      assert others == [] && shown == head;
    }
  }

  lemma TabletsUnfold(rest: seq<string>, t: seq<(string, Damage)>, used: nat)
    requires NextTablet(rest) == Got(t, used)
    ensures Tablets(rest).1 == Tablets(rest[used..]).1
    ensures FlattenTexts(Tablets(rest).0) == Texts(t) + FlattenTexts(Tablets(rest[used..]).0)
  {
    var later := Tablets(rest[used..]);
    assert Tablets(rest) == ([t] + later.0, later.1);
    assert ([t] + later.0)[1..] == later.0;
  }

  /** Lines already stored in front of the outcome of reading the rest of the tablet. */
  function Prefixed(stored: seq<(string, Damage)>, read: nat, r: Outcome): Outcome {
    if r.Got? then Got(stored + r.tablet, read + r.used) else r
  }

  lemma PrefixedNothing(r: Outcome)
    ensures Prefixed([], 0, r) == r
  {
    if r.Got? {
      assert [] + r.tablet == r.tablet;
    }
  }

  /** Reading one more line of a tablet: it closes the tablet, fails it, or is stored. */
  lemma BodyStep(stored: seq<(string, Damage)>, read: nat, line: string, after: seq<string>, state: Option<Damage>)
    ensures line == "\n" ==> Prefixed(stored, read, Body([line] + after, state)) == Got(stored + [Closing], read + 1)
    ensures line != "\n" && NextState(state, line).None? ==> Prefixed(stored, read, Body([line] + after, state)) == Unbound
    ensures line != "\n" && NextState(state, line).Some? ==>
      Prefixed(stored, read, Body([line] + after, state)) ==
      Prefixed(stored + [(Shown(line), NextState(state, line).value)], read + 1, Body(after, NextState(state, line)))
  {
    assert ([line] + after)[0] == line && ([line] + after)[1..] == after;
    if line != "\n" && NextState(state, line).Some? {
      var r := Body(after, NextState(state, line));
      if r.Got? {
        assert stored + ([(Shown(line), NextState(state, line).value)] + r.tablet)
          == stored + [(Shown(line), NextState(state, line).value)] + r.tablet;
      }
    }
  }

  /** The end of the input closes a tablet with a synthesized blank line. */
  lemma BodyEnd(stored: seq<(string, Damage)>, read: nat, state: Option<Damage>)
    ensures Prefixed(stored, read, Body([], state)) == Got(stored + [Closing], read)
  {
  }

  /** `get_next_tablet(fin)`, reading line by line and carrying the damage state. */
  method GetNextTablet(fin: Reader) returns (r: Outcome)
    requires fin.Valid()
    modifies fin`pos
    ensures fin.Valid() && fin.lines == old(fin.lines) && old(fin.pos) <= fin.pos
    ensures r == NextTablet(old(fin.Rest()))
    ensures r.Got? ==> fin.pos == old(fin.pos) + r.used
  {
    ghost var rest := fin.Rest();
    ghost var goal := NextTablet(rest);
    ghost var start := fin.pos;
    var tablet: Option<seq<(string, Damage)>> := None;
    var state: Option<Damage> := None;
    var read: nat := 0;
    while true
      invariant fin.Valid() && fin.lines == old(fin.lines) && start <= fin.pos
      invariant read == fin.pos - start
      invariant rest == fin.lines[start..]
      invariant tablet.None? <==> read == 0
      invariant tablet.Some? ==> state.Some? && |tablet.value| > 0
      invariant tablet.None? ==> state.None?
      invariant tablet.Some? ==> goal == Prefixed(tablet.value, read, Body(rest[read..], state))
      decreases |fin.lines| - fin.pos
    {
      ghost var here := rest[read..];
      var line := fin.ReadLine();
      if line == "" {
        break;
      }
      assert here == [line] + rest[read + 1..];
      if tablet.None? || tablet.value == [] {
        tablet := Some([]);
        PrefixedNothing(Body(here, state));
      }
      assert goal == Prefixed(tablet.value, read, Body([line] + rest[read + 1..], state));
      BodyStep(tablet.value, read, line, rest[read + 1..], state);
      read := read + 1;
      if line == "\n" {
        r := Got(tablet.value + [Closing], read);
        return;
      }
      var next := NextState(state, line);
      if next.None? {
        r := Unbound;
        return;
      }
      state := next;
      tablet := Some(tablet.value + [(Shown(line), next.value)]);
    }
    if tablet.Some? && |tablet.value| > 0 {
      assert rest[read..] == [];
      BodyEnd(tablet.value, read, state);
      r := Got(tablet.value + [Closing], read);
    } else {
      r := Exhausted;
    }
  }

  /** Python's `%`: the remainder takes the sign of the divisor. */
  function PyMod(a: int, b: int): (r: int)
    requires b != 0
    ensures b > 0 ==> 0 <= r < b
    ensures b < 0 ==> b < r <= 0
  {
    var m := a % b;
    if b < 0 && m != 0 then m + b else m
  }

  /** Python 2's `/` on integers: division rounding down. */
  function PyDiv(a: int, b: int): (q: int)
    requires b != 0
    ensures q * b + PyMod(a, b) == a
  {
    if b < 0 && a % b != 0 then a / b - 1 else a / b
  }

  /** `fractions.gcd`: Euclid's algorithm with Python's remainder. */
  function Gcd(a: int, b: int): (g: int)
    ensures a != 0 || b != 0 ==> g != 0
    decreases if b < 0 then -b else b
  {
    if b == 0 then a else Gcd(b, PyMod(a, b))
  }

  lemma MultipleBounds(g: int, m: int)
    requires g > 0
    ensures m >= 1 ==> g * m >= g
    ensures m <= -1 ==> g * m <= -g
  {
    if m >= 1 {
      assert g * m == g * (m - 1) + g;
    } else if m <= -1 {
      assert g * m == -(g * (-m - 1)) - g;
    }
  }

  lemma MultipleMod(g: int, k: int)
    requires g > 0
    ensures (g * k) % g == 0
  {
    var q, r := (g * k) / g, (g * k) % g;
    var m := k - q;
    assert g * m == r by {
      assert g * k == g * q + r;
      assert g * m == g * k - g * q;
    }
    MultipleBounds(g, m);
  }

  /** A common divisor of `b` and `r` divides `b * q + r`. */
  lemma DividesCombination(g: int, b: int, q: int, r: int)
    requires g > 0 && b % g == 0 && r % g == 0
    ensures (b * q + r) % g == 0
  {
    var x, y := b / g, r / g;
    assert b * q == g * (x * q) by {
      assert b == g * x;
    }
    assert b * q + r == g * (x * q + y);
    MultipleMod(g, x * q + y);
  }

  /** For positive arguments the result is a positive common divisor. */
  lemma {:induction false} GcdDivides(a: int, b: int)
    requires a > 0 && b >= 0
    ensures Gcd(a, b) > 0 && a % Gcd(a, b) == 0 && b % Gcd(a, b) == 0
    decreases b
  {
    if b == 0 {
      MultipleMod(a, 0);
      MultipleMod(a, 1);
    } else {
      var r := PyMod(a, b);
      GcdDivides(b, r);
      assert a == b * (a / b) + r;
      DividesCombination(Gcd(b, r), b, a / b, r);
    }
  }

  /** `g = gcd(100, 100 - percent)`; never zero. */
  function Divisor(percent: int): (g: int)
    ensures g != 0
  {
    Gcd(100, 100 - percent)
  }

  /** `trainmax = percent / g`: the training tablets of one cycle. */
  function TrainMax(percent: int): int {
    PyDiv(percent, Divisor(percent))
  }

  /** `testmax = (100 - percent) / g`: the testing tablets of one cycle. */
  function TestMax(percent: int): int {
    PyDiv(100 - percent, Divisor(percent))
  }

  /**
   * For a percentage strictly between 0 and 100 both parts of the cycle are
   * non-empty and the training part is `percent` per cent of the cycle.
   */
  lemma CycleMatchesPercent(percent: int)
    requires 0 < percent < 100
    ensures TrainMax(percent) >= 1 && TestMax(percent) >= 1
    ensures TrainMax(percent) * 100 == percent * (TrainMax(percent) + TestMax(percent))
  {
    GcdDivides(100, 100 - percent);
    var g := Divisor(percent);
    assert TrainMax(percent) == percent / g && TestMax(percent) == (100 - percent) / g;
    SplitCycle(percent, g);
  }

  /** Dividing `percent` and `100 - percent` by a common divisor keeps their proportion. */
  lemma SplitCycle(percent: int, g: int)
    requires 0 < percent < 100 && g > 0 && 100 % g == 0 && (100 - percent) % g == 0
    ensures percent / g >= 1 && (100 - percent) / g >= 1
    ensures (percent / g) * 100 == percent * (percent / g + (100 - percent) / g)
  {
    var h, te := 100 / g, (100 - percent) / g;
    assert 100 == g * h;
    assert 100 - percent == g * te;
    var tm := h - te;
    assert percent == g * tm by {
      assert g * tm == g * h - g * te;
    }
    ExactQuotient(g, tm);
    PositiveFactor(g, tm);
    PositiveFactor(g, te);
    assert tm * 100 == percent * h by {
      assert tm * 100 == tm * (g * h);
      assert percent * h == (g * tm) * h;
      assert tm * (g * h) == (g * tm) * h;
    }
  }

  /** Division undoes an exact multiple. */
  lemma ExactQuotient(g: int, q: int)
    requires g > 0
    ensures (g * q) / g == q
  {
    var d := (g * q) / g;
    MultipleMod(g, q);
    assert g * d == g * q;
    assert g * (d - q) == 0 by {
      assert g * (d - q) == g * d - g * q;
    }
    MultipleBounds(g, d - q);
  }

  /** A positive multiple of a positive number has a positive factor. */
  lemma PositiveFactor(g: int, x: int)
    requires g > 0 && g * x > 0
    ensures x >= 1
  {
    if x <= 0 {
      assert g * x == -(g * (-x));
      MultipleBounds(g, -x);
    }
  }

  /**
   * Percentage 0 gives (0, 1): the counter starts at 0, goes negative and never
   * switches, so every tablet goes to training (`NeverSwitches`). Percentage 100
   * gives (1, 0): the first tablet goes to training and all later ones to
   * testing (`SwitchesOnce`).
   */
  lemma PercentEdges()
    ensures TrainMax(0) == 0 && TestMax(0) == 1
    ensures TrainMax(100) == 1 && TestMax(100) == 0
  {
    assert Gcd(100, 100) == Gcd(100, 0) == 100;
  }

  /** One tablet done: `count -= 1`, and at zero the destination switches and the counter reloads. */
  function Tick(st: (int, bool), trainmax: int, testmax: int): (int, bool) {
    var count := st.0 - 1;
    if count == 0 then (if st.1 then (testmax, false) else (trainmax, true)) else (count, st.1)
  }

  /** The counter and the destination (true: training) before tablet `i`. */
  function Cycle(trainmax: int, testmax: int, i: nat): (int, bool) {
    if i == 0 then (trainmax, true) else Tick(Cycle(trainmax, testmax, i - 1), trainmax, testmax)
  }

  function ToTrain(trainmax: int, testmax: int, i: nat): bool {
    Cycle(trainmax, testmax, i).1
  }

  /**
   * With both parts non-empty the destinations repeat with period
   * `trainmax + testmax`: within each cycle the first `trainmax` tablets go to
   * training and the remaining `testmax` to testing.
   */
  lemma {:induction false} CyclePeriodic(trainmax: int, testmax: int, k: nat, j: nat)
    requires trainmax > 0 && testmax > 0 && j < trainmax + testmax
    ensures Cycle(trainmax, testmax, k * (trainmax + testmax) + j) ==
      if j < trainmax then (trainmax - j, true) else (trainmax + testmax - j, false)
    decreases k, j
  {
    var n := trainmax + testmax;
    if j > 0 {
      CyclePeriodic(trainmax, testmax, k, j - 1);
      assert k * n + j - 1 == k * n + (j - 1);
    } else if k > 0 {
      CyclePeriodic(trainmax, testmax, k - 1, n - 1);
      assert (k - 1) * n + (n - 1) == k * n - 1;
    }
  }

  /** How many of the first `n` tablets go to training. */
  function TrainCount(trainmax: int, testmax: int, n: nat): nat {
    if n == 0 then 0 else TrainCount(trainmax, testmax, n - 1) + (if ToTrain(trainmax, testmax, n - 1) then 1 else 0)
  }

  lemma {:induction false} TrainCountPartial(trainmax: int, testmax: int, k: nat, j: nat)
    requires trainmax > 0 && testmax > 0 && j <= trainmax + testmax
    ensures TrainCount(trainmax, testmax, k * (trainmax + testmax) + j) == k * trainmax + (if j < trainmax then j else trainmax)
    decreases k, j
  {
    var n := trainmax + testmax;
    if j > 0 {
      TrainCountPartial(trainmax, testmax, k, j - 1);
      CyclePeriodic(trainmax, testmax, k, j - 1);
      assert k * n + j - 1 == k * n + (j - 1);
    } else if k > 0 {
      TrainCountPartial(trainmax, testmax, k - 1, n);
      assert (k - 1) * n + n == k * n;
      assert (k - 1) * trainmax + trainmax == k * trainmax;
    }
  }

  /** After `k` full cycles training has received `k * trainmax` tablets and testing `k * testmax`. */
  lemma FullCycles(trainmax: int, testmax: int, k: nat)
    requires trainmax > 0 && testmax > 0
    ensures TrainCount(trainmax, testmax, k * (trainmax + testmax)) == k * trainmax
    ensures k * (trainmax + testmax) - TrainCount(trainmax, testmax, k * (trainmax + testmax)) == k * testmax
  {
    TrainCountPartial(trainmax, testmax, k, 0);
  }

  /** A counter that starts at zero or below only goes further down: every tablet goes to training (percentage 0). */
  lemma {:induction false} NeverSwitches(trainmax: int, testmax: int, i: nat)
    requires trainmax <= 0
    ensures Cycle(trainmax, testmax, i) == (trainmax - i, true)
    decreases i
  {
    if i > 0 {
      NeverSwitches(trainmax, testmax, i - 1);
    }
  }

  /** Percentage 100: the first tablet goes to training, and after it the counter passes zero and every tablet goes to testing. */
  lemma {:induction false} SwitchesOnce(i: nat)
    ensures Cycle(1, 0, i) == if i == 0 then (1, true) else (1 - i, false)
    decreases i
  {
    if i > 0 {
      SwitchesOnce(i - 1);
    }
  }

  /** `--percent 0` sends every tablet to training; `--percent 100` sends only the first there. */
  lemma PercentDestinations(i: nat)
    ensures ToTrain(TrainMax(0), TestMax(0), i)
    ensures ToTrain(TrainMax(100), TestMax(100), i) <==> i == 0
  {
    PercentEdges();
    NeverSwitches(0, 1, i);
    SwitchesOnce(i);
  }

  /** The damages an output accepts: undamaged lines, and recoverably damaged ones when `permit` is set. */
  predicate Accepts(permit: bool, d: Damage) {
    d == Undamaged || (permit && d == Recoverable)
  }

  /** The entries of a tablet an output keeps, in order. */
  function Filter(t: seq<(string, Damage)>, permit: bool): seq<(string, Damage)> {
    if |t| == 0 then []
    else (if Accepts(permit, t[0].1) then [t[0]] else []) + Filter(t[1..], permit)
  }

  /**
   * An output keeps exactly the entries whose damage it accepts: the training
   * and damage-removing testing outputs only undamaged lines, the
   * damage-permitting testing output undamaged and recoverable ones, never an
   * unrecoverable one.
   */
  lemma {:induction false} FilterKeeps(t: seq<(string, Damage)>, permit: bool)
    ensures forall e :: e in Filter(t, permit) <==> e in t && Accepts(permit, e.1)
    ensures forall e :: e in Filter(t, permit) ==> e.1 != Unrecoverable && (!permit ==> e.1 == Undamaged)
    decreases |t|
  {
    if |t| > 0 {
      FilterKeeps(t[1..], permit);
      assert t == [t[0]] + t[1..];
    }
  }

  /** Write the lines of a tablet that an output accepts. */
  method WriteKept(out: Writer, t: seq<(string, Damage)>, permit: bool)
    modifies out
    ensures out.written == old(out.written) + Texts(Filter(t, permit))
  {
    for i := 0 to |t|
      invariant out.written == old(out.written) + Texts(Filter(t[..i], permit))
    {
      KeptStep(t, i, permit);
      if Accepts(permit, t[i].1) {
        out.Write(t[i].0);
      }
    }
    assert t[..|t|] == t;
  }

  lemma KeptStep(t: seq<(string, Damage)>, i: nat, permit: bool)
    requires i < |t|
    ensures Texts(Filter(t[..i + 1], permit)) ==
      Texts(Filter(t[..i], permit)) + (if Accepts(permit, t[i].1) then [t[i].0] else [])
  {
    assert t[..i + 1] == t[..i] + [t[i]];
    FilterAppend(t[..i], [t[i]], permit);
    TextsAppend(Filter(t[..i], permit), Filter([t[i]], permit));
    assert Filter([t[i]], permit) == if Accepts(permit, t[i].1) then [t[i]] else [];
  }

  lemma {:induction false} FilterAppend(a: seq<(string, Damage)>, b: seq<(string, Damage)>, permit: bool)
    ensures Filter(a + b, permit) == Filter(a, permit) + Filter(b, permit)
    decreases |a|
  {
    if |a| == 0 {
      assert a + b == b;
    } else {
      var head := if Accepts(permit, a[0].1) then [a[0]] else [];
      assert (a + b)[0] == a[0];
      assert (a + b)[1..] == a[1..] + b;
      FilterAppend(a[1..], b, permit);
      assert Filter(a + b, permit) == head + Filter(a[1..] + b, permit);
      assert Filter(a, permit) == head + Filter(a[1..], permit);
    }
  }

  /** The destinations of the first `n` tablets, in order (true: training). */
  function Schedule(trainmax: int, testmax: int, n: nat): (s: seq<bool>)
    ensures |s| == n
    ensures forall i :: 0 <= i < n ==> s[i] == ToTrain(trainmax, testmax, i)
  {
    if n == 0 then [] else Schedule(trainmax, testmax, n - 1) + [ToTrain(trainmax, testmax, n - 1)]
  }

  /** What an output receives from tablets `ts` dealt to `dests`: the accepted lines of those sent its way (`toTrain` says which way). */
  function Routed(ts: seq<seq<(string, Damage)>>, dests: seq<bool>, toTrain: bool, permit: bool): seq<string>
    requires |dests| == |ts|
  {
    if |ts| == 0 then []
    else
      Routed(ts[..|ts| - 1], dests[..|ts| - 1], toTrain, permit) +
      (if dests[|ts| - 1] == toTrain then Texts(Filter(ts[|ts| - 1], permit)) else [])
  }

  /** What an output receives when tablets `ts` are dealt by the cycle of `trainmax` and `testmax`. */
  function Dealt(ts: seq<seq<(string, Damage)>>, trainmax: int, testmax: int, toTrain: bool, permit: bool): seq<string> {
    Routed(ts, Schedule(trainmax, testmax, |ts|), toTrain, permit)
  }

  /** The header: every line up to and including the first blank line goes to the training output. */
  method CopyHeader(fin: Reader, train: Writer)
    requires fin.Valid() && "\n" in fin.Rest()
    modifies fin`pos, train
    ensures fin.Valid() && fin.lines == old(fin.lines)
    ensures fin.pos == old(fin.pos) + Segment.FirstBlank(old(fin.Rest())) + 1
    ensures train.written == old(train.written) + old(fin.Rest())[..Segment.FirstBlank(old(fin.Rest())) + 1]
  {
    ghost var rest := fin.Rest();
    ghost var start := fin.pos;
    ghost var k := Segment.FirstBlank(rest);
    assert k < |rest| by {
      var j :| 0 <= j < |rest| && rest[j] == "\n";
    }
    var loop := true;
    ghost var n := 0;
    while loop
      invariant fin.Valid() && fin.lines == old(fin.lines) && rest == fin.lines[start..]
      invariant fin.pos == start + n && n <= k + 1
      invariant loop == (n <= k)
      invariant train.written == old(train.written) + rest[..n]
      decreases k + 1 - n
    {
      var line := fin.ReadLine();
      assert line == rest[n];
      Segment.FirstBlankAt(rest, n);
      assert rest[..n + 1] == rest[..n] + [line];
      n := n + 1;
      train.Write(line);
      if "\n" == line {
        loop := false;
      }
    }
  }

  /** One more tablet adds the lines the output accepts when it is sent that output's way, and nothing otherwise. */
  lemma RoutedStep(done: seq<seq<(string, Damage)>>, dests: seq<bool>, t: seq<(string, Damage)>, dest: bool, toTrain: bool, permit: bool)
    requires |dests| == |done|
    ensures Routed(done + [t], dests + [dest], toTrain, permit) ==
      Routed(done, dests, toTrain, permit) + (if dest == toTrain then Texts(Filter(t, permit)) else [])
  {
    assert (done + [t])[..|done|] == done;
    assert (dests + [dest])[..|done|] == dests;
  }

  /** The writes for one tablet: `for fout in fouts: ...`, each output keeping the lines it accepts. */
  method SendTablet(train: Writer, testRemove: Writer, testPermit: Writer, t: seq<(string, Damage)>, toTrain: bool)
    requires train != testRemove && train != testPermit && testRemove != testPermit
    modifies train, testRemove, testPermit
    ensures train.written == old(train.written) + (if toTrain then Texts(Filter(t, false)) else [])
    ensures testRemove.written == old(testRemove.written) + (if toTrain then [] else Texts(Filter(t, false)))
    ensures testPermit.written == old(testPermit.written) + (if toTrain then [] else Texts(Filter(t, true)))
  {
    if toTrain {
      WriteKept(train, t, false);
    } else {
      WriteKept(testRemove, t, false);
      WriteKept(testPermit, t, true);
    }
  }

  /** One tablet dealt: each output's contents grow as `Routed` says. */
  method Send(train: Writer, testRemove: Writer, testPermit: Writer, t: seq<(string, Damage)>, toTrain: bool,
              ghost done: seq<seq<(string, Damage)>>, ghost dests: seq<bool>,
              ghost b0: seq<string>, ghost b1: seq<string>, ghost b2: seq<string>)
    requires train != testRemove && train != testPermit && testRemove != testPermit
    requires |dests| == |done|
    requires train.written == b0 + Routed(done, dests, true, false)
    requires testRemove.written == b1 + Routed(done, dests, false, false)
    requires testPermit.written == b2 + Routed(done, dests, false, true)
    modifies train, testRemove, testPermit
    ensures train.written == b0 + Routed(done + [t], dests + [toTrain], true, false)
    ensures testRemove.written == b1 + Routed(done + [t], dests + [toTrain], false, false)
    ensures testPermit.written == b2 + Routed(done + [t], dests + [toTrain], false, true)
  {
    ghost var r0 := Routed(done, dests, true, false);
    ghost var r1 := Routed(done, dests, false, false);
    ghost var r2 := Routed(done, dests, false, true);
    ghost var a0 := if toTrain then Texts(Filter(t, false)) else [];
    ghost var a1 := if toTrain then [] else Texts(Filter(t, false));
    ghost var a2 := if toTrain then [] else Texts(Filter(t, true));
    SendTablet(train, testRemove, testPermit, t, toTrain);
    RoutedStep(done, dests, t, toTrain, true, false);
    RoutedStep(done, dests, t, toTrain, false, false);
    RoutedStep(done, dests, t, toTrain, false, true);
    Regroup(b0, r0, a0);
    Regroup(b1, r1, a1);
    Regroup(b2, r2, a2);
  }

  /** `count -= 1`, and at zero switch between training and testing and reload the counter. */
  method Switch(count: int, toTrain: bool, trainmax: int, testmax: int) returns (count': int, toTrain': bool)
    ensures (count', toTrain') == Tick((count, toTrain), trainmax, testmax)
    ensures toTrain' != toTrain <==> count == 1
  {
    count', toTrain' := count - 1, toTrain;
    if 0 == count' {
      if toTrain {
        toTrain', count' := false, testmax;
      } else {
        toTrain', count' := true, trainmax;
      }
    }
  }

  /** The tablets still to come: the outcome just read and the tablets after it. */
  function Upcoming(r: Outcome, rest: seq<string>): (seq<seq<(string, Damage)>>, bool) {
    match r
    case Exhausted => ([], false)
    case Unbound => ([], true)
    case Got(t, _) => ([t] + Tablets(rest).0, Tablets(rest).1)
  }

  /** `GetNextTablet` on what is left of the input. */
  method ReadTablet(fin: Reader) returns (r: Outcome)
    requires fin.Valid()
    modifies fin`pos
    ensures fin.Valid() && fin.lines == old(fin.lines) && old(fin.pos) <= fin.pos
    ensures Upcoming(r, fin.Rest()) == Tablets(old(fin.Rest()))
    ensures r.Got? ==> fin.pos > old(fin.pos)
  {
    ghost var rest := fin.Rest();
    r := GetNextTablet(fin);
    if r.Got? {
      assert fin.Rest() == rest[r.used..];
    }
  }

  /**
   * The dealing loop of `partition`: each tablet goes to the training output or
   * to both testing outputs, as the cycle says, and each output keeps the lines
   * whose damage it accepts. Reading stops at the end of the input or at a
   * tablet that fails.
   */
  method Deal(fin: Reader, train: Writer, testRemove: Writer, testPermit: Writer, trainmax: int, testmax: int)
    returns (crashed: bool)
    requires fin.Valid()
    requires train != testRemove && train != testPermit && testRemove != testPermit
    modifies fin`pos, train, testRemove, testPermit
    ensures crashed == Tablets(old(fin.Rest())).1
    ensures train.written == old(train.written) + Dealt(Tablets(old(fin.Rest())).0, trainmax, testmax, true, false)
    ensures testRemove.written == old(testRemove.written) + Dealt(Tablets(old(fin.Rest())).0, trainmax, testmax, false, false)
    ensures testPermit.written == old(testPermit.written) + Dealt(Tablets(old(fin.Rest())).0, trainmax, testmax, false, true)
  {
    ghost var goal := Tablets(fin.Rest());
    ghost var b0, b1, b2 := train.written, testRemove.written, testPermit.written;
    ghost var done: seq<seq<(string, Damage)>> := [];
    ghost var dests: seq<bool> := [];
    var count, toTrain := trainmax, true;
    var r := ReadTablet(fin);
    assert [] + Upcoming(r, fin.Rest()).0 == Upcoming(r, fin.Rest()).0;
    while r.Got?
      invariant fin.Valid() && fin.lines == old(fin.lines)
      invariant (done + Upcoming(r, fin.Rest()).0, Upcoming(r, fin.Rest()).1) == goal
      invariant (count, toTrain) == Cycle(trainmax, testmax, |done|)
      invariant dests == Schedule(trainmax, testmax, |done|)
      invariant train.written == b0 + Routed(done, dests, true, false)
      invariant testRemove.written == b1 + Routed(done, dests, false, false)
      invariant testPermit.written == b2 + Routed(done, dests, false, true)
      decreases |fin.lines| - fin.pos, r.Got?
    {
      ghost var later := Tablets(fin.Rest());
      assert done + Upcoming(r, fin.Rest()).0 == done + [r.tablet] + later.0;
      Send(train, testRemove, testPermit, r.tablet, toTrain, done, dests, b0, b1, b2);
      done, dests := done + [r.tablet], dests + [toTrain];
      count, toTrain := Switch(count, toTrain, trainmax, testmax);
      r := ReadTablet(fin);
    }
    crashed := r.Unbound?;
    assert done + [] == done;
  }

  /**
   * `partition`: copy the header to the training output, start both testing
   * outputs with a blank line, then deal out the tablets in cycles of
   * `trainmax` training and `testmax` testing tablets. The input must hold a
   * blank line, or the header loop never ends.
   */
  method Run(fin: Reader, train: Writer, testRemove: Writer, testPermit: Writer, percent: int)
    returns (crashed: bool)
    requires fin.Valid() && "\n" in fin.Rest()
    requires train != testRemove && train != testPermit && testRemove != testPermit
    modifies fin`pos, train, testRemove, testPermit
    ensures crashed == Tablets(old(fin.Rest())[Segment.FirstBlank(old(fin.Rest())) + 1..]).1
    ensures train.written == old(train.written) + old(fin.Rest())[..Segment.FirstBlank(old(fin.Rest())) + 1] +
      Dealt(Tablets(old(fin.Rest())[Segment.FirstBlank(old(fin.Rest())) + 1..]).0, TrainMax(percent), TestMax(percent), true, false)
    ensures testRemove.written == old(testRemove.written) + ["\n"] +
      Dealt(Tablets(old(fin.Rest())[Segment.FirstBlank(old(fin.Rest())) + 1..]).0, TrainMax(percent), TestMax(percent), false, false)
    ensures testPermit.written == old(testPermit.written) + ["\n"] +
      Dealt(Tablets(old(fin.Rest())[Segment.FirstBlank(old(fin.Rest())) + 1..]).0, TrainMax(percent), TestMax(percent), false, true)
  {
    ghost var all := fin.Rest();
    CopyHeader(fin, train);
    assert fin.Rest() == all[Segment.FirstBlank(all) + 1..];
    testRemove.Write("\n");
    testPermit.Write("\n");
    crashed := Deal(fin, train, testRemove, testPermit, TrainMax(percent), TestMax(percent));
  }
}
