/** The hero banner's typewriter: the words of a list are typed into a span one
    character at a time, held, erased one character at a time, and the next word
    (cyclically) follows. Timers are modelled as the step that runs next and the
    delay before it. */
module Typewriter {
  import opened Optional

  /** The words the banner cycles through. */
  const TextArray: seq<string> := ["MOBILE APPS", "GAMES", "WEBAPPS", "MOTION", "WEBSITES", "UX/UI", "THINGS"]

  /** Milliseconds between two typed characters. */
  const TypingDelay: nat := 200
  /** Milliseconds between two erased characters. */
  const ErasingDelay: nat := 100
  /** Milliseconds a complete word stays on screen. */
  const NewTextDelay: nat := 2000
  /** Milliseconds before the first character after page load. */
  const StartDelay: nat := NewTextDelay + 250
  /** Milliseconds between the last erasure and the next word's first character. */
  const NextWordDelay: nat := TypingDelay + 1100

  /** The function the pending timeout will call. */
  datatype Phase = Typing | Erasing

  /** `textArrayIndex`, `charIndex`, the span's text, the pending step, whether the
      cursor carries the `typing` class, and the delay before the pending step. */
  datatype State = State(index: nat, charIndex: nat, shown: string, next: Phase,
                         cursorTyping: bool, delay: nat)

  /** `String.prototype.substring(0, n)` for `n >= 0`: the end is clamped to the
      length. */
  function Prefix(w: string, n: nat): (r: string)
    ensures n <= |w| ==> r == w[..n]
    ensures n > |w| ==> r == w
  {
    if n <= |w| then w[..n] else w
  }

  /** The page-load handler: nothing is scheduled for an empty list, otherwise the
      first word starts typing after `StartDelay`. */
  function Start(words: seq<string>): (r: Option<State>)
    ensures r.None? <==> |words| == 0
    ensures r.Some? ==> r.value == State(0, 0, "", Typing, false, StartDelay)
    ensures r.Some? ==> Inv(words, r.value)
  {
    if |words| == 0 then None else Some(State(0, 0, "", Typing, false, StartDelay))
  }

  /** `type`: append the next character of the current word and type again soon;
      once the word is complete, drop the cursor's `typing` class and schedule the
      erasure after the word has been on screen for a while. */
  function Type(words: seq<string>, s: State): (r: State)
    requires s.index < |words|
    ensures r.index == s.index
    ensures s.charIndex < |words[s.index]| ==>
              && r.charIndex == s.charIndex + 1
              && r.shown == s.shown + [words[s.index][s.charIndex]]
              && r.next == Typing && r.delay == TypingDelay
    ensures s.charIndex >= |words[s.index]| ==>
              && r.charIndex == s.charIndex && r.shown == s.shown
              && r.next == Erasing && r.delay == NewTextDelay
    ensures r.cursorTyping <==> r.next == Typing
  {
    var w := words[s.index];
    if s.charIndex < |w| then
      State(s.index, s.charIndex + 1, s.shown + [w[s.charIndex]], Typing, true, TypingDelay)
    else
      s.(next := Erasing, cursorTyping := false, delay := NewTextDelay)
  }

  /** `erase`: show one character fewer of the current word and erase again soon;
      once nothing is left, move to the next word (back to the first after the
      last) and schedule its typing. */
  function Erase(words: seq<string>, s: State): (r: State)
    requires s.index < |words|
    ensures r.index < |words|
    ensures s.charIndex > 0 ==>
              && r.index == s.index && r.charIndex == s.charIndex - 1
              && r.shown == Prefix(words[s.index], s.charIndex - 1)
              && r.next == Erasing && r.delay == ErasingDelay && r.cursorTyping
    ensures s.charIndex == 0 ==>
              && r.index == (s.index + 1) % |words| && r.charIndex == 0 && r.shown == s.shown
              && r.next == Typing && r.delay == NextWordDelay && !r.cursorTyping
  {
    if s.charIndex > 0 then
      State(s.index, s.charIndex - 1, Prefix(words[s.index], s.charIndex - 1), Erasing, true, ErasingDelay)
    else
      var i := s.index + 1;
      s.(index := if i >= |words| then 0 else i, next := Typing, cursorTyping := false,
         delay := NextWordDelay)
  }

  /** The timeout firing: run the pending step. */
  function Step(words: seq<string>, s: State): (r: State)
    requires s.index < |words|
    ensures r.index < |words|
  {
    match s.next
    case Typing => Type(words, s)
    case Erasing => Erase(words, s)
  }

  /** What the span shows is the typed prefix of the current word. */
  ghost predicate Inv(words: seq<string>, s: State) {
    && s.index < |words|
    && s.charIndex <= |words[s.index]|
    && s.shown == words[s.index][..s.charIndex]
  }

  /** Every step keeps the span equal to a prefix of the current word, with the
      character index inside that word and the word index inside the list. */
  lemma StepKeepsInv(words: seq<string>, s: State)
    requires Inv(words, s)
    ensures Inv(words, Step(words, s))
  {
    var w := words[s.index];
    var r := Step(words, s);
    match s.next
    case Typing =>
      if s.charIndex < |w| {
        assert w[..s.charIndex + 1] == w[..s.charIndex] + [w[s.charIndex]];
      }
    case Erasing =>
      if s.charIndex == 0 {
        assert r.shown == [];
      }
  }

  /** The state after `k` timeouts. */
  function Run(words: seq<string>, s: State, k: nat): (r: State)
    requires s.index < |words|
    ensures r.index < |words|
    decreases k
  {
    if k == 0 then s else Run(words, Step(words, s), k - 1)
  }

  /** The milliseconds the next `k` timeouts take. */
  function Elapsed(words: seq<string>, s: State, k: nat): nat
    requires s.index < |words|
    decreases k
  {
    if k == 0 then 0 else Step(words, s).delay + Elapsed(words, Step(words, s), k - 1)
  }

  /** The invariant holds after any number of timeouts. */
  lemma {:induction false} RunKeepsInv(words: seq<string>, s: State, k: nat)
    requires Inv(words, s)
    ensures Inv(words, Run(words, s, k))
    decreases k
  {
    if k > 0 {
      StepKeepsInv(words, s);
      RunKeepsInv(words, Step(words, s), k - 1);
    }
  }

  /** From page load on, the span always shows a prefix of the current word. */
  lemma BannerShowsPrefixes(words: seq<string>, k: nat)
    requires |words| > 0
    ensures Inv(words, Run(words, Start(words).value, k))
  {
    RunKeepsInv(words, Start(words).value, k);
  }

  /** Running `a` timeouts and then `b` more is running `a + b`; so is the time
      they take. */
  lemma {:induction false} RunAdd(words: seq<string>, s: State, a: nat, b: nat)
    requires s.index < |words|
    ensures Run(words, s, a + b) == Run(words, Run(words, s, a), b)
    ensures Elapsed(words, s, a + b) == Elapsed(words, s, a) + Elapsed(words, Run(words, s, a), b)
    decreases a
  {
    if a > 0 {
      RunAdd(words, Step(words, s), a - 1, b);
    }
  }

  /** While typing, `k` timeouts type the next `k` characters, `TypingDelay`
      apart. */
  lemma {:induction false} TypeRun(words: seq<string>, s: State, k: nat)
    requires Inv(words, s) && s.next == Typing
    requires s.charIndex + k <= |words[s.index]|
    ensures var r := Run(words, s, k);
            && r.index == s.index && r.charIndex == s.charIndex + k
            && r.shown == words[s.index][..s.charIndex + k] && r.next == Typing
    ensures Elapsed(words, s, k) == k * TypingDelay
    decreases k
  {
    if k > 0 {
      StepKeepsInv(words, s);
      TypeRun(words, Step(words, s), k - 1);
    }
  }

  /** While erasing, `k` timeouts remove the last `k` characters, `ErasingDelay`
      apart. */
  lemma {:induction false} EraseRun(words: seq<string>, s: State, k: nat)
    requires Inv(words, s) && s.next == Erasing
    requires k <= s.charIndex
    ensures var r := Run(words, s, k);
            && r.index == s.index && r.charIndex == s.charIndex - k
            && r.shown == words[s.index][..s.charIndex - k] && r.next == Erasing
    ensures Elapsed(words, s, k) == k * ErasingDelay
    decreases k
  {
    if k > 0 {
      StepKeepsInv(words, s);
      EraseRun(words, Step(words, s), k - 1);
    }
  }

  /** From an empty span about to type word `i`, `|w| + 1` timeouts type it in
      full and schedule its erasure, in `200|w| + 2000` milliseconds. */
  lemma TypeAndHold(words: seq<string>, s: State)
    requires s.index < |words| && s.charIndex == 0 && s.shown == "" && s.next == Typing
    ensures var n := |words[s.index]|;
            var r := Run(words, s, n + 1);
            && r.index == s.index && r.charIndex == n && r.shown == words[s.index] && r.next == Erasing
            && Elapsed(words, s, n + 1) == n * TypingDelay + NewTextDelay
  {
    var n := |words[s.index]|;
    assert Inv(words, s);
    TypeRun(words, s, n);
    var typed := Run(words, s, n);
    assert words[s.index][..n] == words[s.index];
    assert Run(words, typed, 1) == Step(words, typed);
    RunAdd(words, s, n, 1);
  }

  /** From a complete word `i` about to be erased, `|w| + 1` timeouts erase it and
      schedule word `(i + 1) mod n` on an empty span, in `100|w| + 1300`
      milliseconds. */
  lemma EraseAndAdvance(words: seq<string>, s: State)
    requires s.index < |words| && s.charIndex == |words[s.index]| && s.shown == words[s.index]
    requires s.next == Erasing
    ensures var n := |words[s.index]|;
            var r := Run(words, s, n + 1);
            && r.index == (s.index + 1) % |words| && r.charIndex == 0 && r.shown == ""
            && r.next == Typing
            && Elapsed(words, s, n + 1) == n * ErasingDelay + NextWordDelay
  {
    var n := |words[s.index]|;
    assert Inv(words, s);
    EraseRun(words, s, n);
    var erased := Run(words, s, n);
    assert Run(words, erased, 1) == Step(words, erased);
    RunAdd(words, s, n, 1);
  }

  /** One full word: from an empty span about to type word `i`, `2|w| + 2`
      timeouts type it, hold it, erase it and reach an empty span about to type
      word `(i + 1) mod n`; this takes `300|w| + 3300` milliseconds. */
  lemma WordCycle(words: seq<string>, s: State)
    requires s.index < |words| && s.charIndex == 0 && s.shown == "" && s.next == Typing
    ensures var n := |words[s.index]|;
            var r := Run(words, s, 2 * n + 2);
            && r.index == (s.index + 1) % |words| && r.charIndex == 0
            && r.shown == "" && r.next == Typing
            && Elapsed(words, s, 2 * n + 2) == n * (TypingDelay + ErasingDelay) + NewTextDelay + NextWordDelay
  {
    var n := |words[s.index]|;
    TypeAndHold(words, s);
    var held := Run(words, s, n + 1);
    EraseAndAdvance(words, held);
    RunAdd(words, s, n + 1, n + 1);
    assert 2 * n + 2 == (n + 1) + (n + 1);
  }

  /** The timeouts `m` whole words take, starting with the word at `i`. */
  function CycleSteps(words: seq<string>, i: nat, m: nat): nat
    requires i < |words|
    decreases m
  {
    if m == 0 then 0
    else 2 * |words[i]| + 2 + CycleSteps(words, (i + 1) % |words|, m - 1)
  }

  /** The word `m` places on from `i`, wrapping after the last one. */
  function Advance(i: nat, m: nat, len: nat): (r: nat)
    requires i < len
    ensures r < len
    decreases m
  {
    if m == 0 then i else Advance((i + 1) % len, m - 1, len)
  }

  /** `m` whole words typed and erased from the start of a word end at the
      start of the word `m` places on, with an empty span. */
  lemma {:induction false} Cycles(words: seq<string>, s: State, m: nat)
    requires s.index < |words| && s.charIndex == 0 && s.shown == "" && s.next == Typing
    ensures var r := Run(words, s, CycleSteps(words, s.index, m));
            r.index == Advance(s.index, m, |words|) && r.charIndex == 0 && r.shown == "" && r.next == Typing
    decreases m
  {
    if m > 0 {
      var n := |words[s.index]|;
      WordCycle(words, s);
      var t := Run(words, s, 2 * n + 2);
      Cycles(words, t, m - 1);
      RunAdd(words, s, 2 * n + 2, CycleSteps(words, t.index, m - 1));
    }
  }

  /** The banner's own list starts typing "MOBILE APPS" after 2250 ms and
      reaches "THINGS", its last word, with an empty span after 96 timeouts. */
  lemma BannerReachesLast()
    ensures CycleSteps(TextArray, 0, 6) == 96
    ensures var r := Run(TextArray, Start(TextArray).value, CycleSteps(TextArray, 0, 6));
            r.index == 6 && r.charIndex == 0 && r.shown == "" && r.next == Typing
  {
    assert CycleSteps(TextArray, 5, 1) == 12;
    assert CycleSteps(TextArray, 4, 2) == 30;
    assert CycleSteps(TextArray, 3, 3) == 44;
    assert CycleSteps(TextArray, 2, 4) == 60;
    assert CycleSteps(TextArray, 1, 5) == 72;
    assert Advance(0, 6, 7) == 6;
    Cycles(TextArray, Start(TextArray).value, 6);
  }

  /** 14 timeouts after reaching "THINGS", once it has been typed and erased,
      the banner is back at "MOBILE APPS" with an empty span. */
  lemma BannerWraps()
    ensures Start(TextArray) == Some(State(0, 0, "", Typing, false, 2250))
    ensures CycleSteps(TextArray, 0, 7) == 96 + 14
    ensures var r := Run(TextArray, Start(TextArray).value, CycleSteps(TextArray, 0, 7));
            r.index == 0 && r.charIndex == 0 && r.shown == "" && r.next == Typing
  {
    Cycles(TextArray, Start(TextArray).value, 7);
  }
}
