/**
 * The hero-section typewriter: it types a profession one character at a time, pauses,
 * erases it one character at a time, pauses, and moves on to the next profession,
 * forever. Each step writes the subtitle and schedules the next step after a delay;
 * here the written text and the delay are returned instead.
 */
module Typewriter {

  const Greeting: string := "I'm a "
  const Cursor: string := "<span class=\"cursor\">|</span>"

  /** The list shown on the site. */
  const Professions: seq<string> := [
    "Designer",
    "CAD Technician",
    "Metallurgical Technician",
    "Video Editor",
    "Junior Programmer",
    "Junior Machinist",
    "Office Assistant"
  ]

  const TypingDelay := 150
  const DeletingDelay := 75
  const FullWordPause := 2000
  const EmptyWordPause := 500

  /** The four closure variables of the animation. */
  datatype TypeState = TypeState(professionIndex: int, charIndex: int, isDeleting: bool, typingSpeed: int)

  const Start := TypeState(0, 0, false, TypingDelay)

  predicate AllNonEmpty(words: seq<string>) {
    forall i :: 0 <= i < |words| ==> words[i] != []
  }

  /** JavaScript's `s.substring(0, end)`: the end index is clamped into `0 .. |s|`. */
  function Substring(s: string, end: int): (r: string)
    ensures r <= s
    ensures 0 <= end <= |s| ==> |r| == end
  {
    s[..if end < 0 then 0 else if end > |s| then |s| else end]
  }

  /** The state after one step of the animation. */
  function Next(words: seq<string>, st: TypeState): (n: TypeState)
    requires 0 <= st.professionIndex < |words|
    ensures 0 <= n.professionIndex < |words|
  {
    var w := words[st.professionIndex];
    var c := if st.isDeleting then st.charIndex - 1 else st.charIndex + 1;
    var speed := if st.isDeleting then DeletingDelay else TypingDelay;
    if !st.isDeleting && c == |w| then TypeState(st.professionIndex, c, true, FullWordPause)
    else if st.isDeleting && c == 0 then TypeState((st.professionIndex + 1) % |words|, c, false, EmptyWordPause)
    else TypeState(st.professionIndex, c, st.isDeleting, speed)
  }

  /** The subtitle markup written by the step taken from `st`. */
  function Shown(words: seq<string>, st: TypeState): string
    requires 0 <= st.professionIndex < |words|
  {
    var w := words[st.professionIndex];
    Greeting + Substring(w, if st.isDeleting then st.charIndex - 1 else st.charIndex + 1) + Cursor
  }

  /**
   * The states the animation reaches from `Start` when no profession is empty: while typing
   * the shown prefix is shorter than the word, while deleting it is between 1 and the word.
   */
  ghost predicate Inv(words: seq<string>, st: TypeState) {
    && 0 <= st.professionIndex < |words|
    && var w := words[st.professionIndex];
    && (!st.isDeleting ==> 0 <= st.charIndex < |w|)
    && (st.isDeleting ==> 1 <= st.charIndex <= |w|)
  }

  lemma StartInv(words: seq<string>)
    requires |words| > 0 && AllNonEmpty(words)
    ensures Inv(words, Start)
  {
    assert words[0] != [];
  }

  /**
   * Bounds: a step from a reachable state keeps the indexes in range, keeps the invariant,
   * and enters deleting only with at least one character shown.
   */
  lemma StepBounds(words: seq<string>, st: TypeState)
    requires AllNonEmpty(words) && Inv(words, st)
    ensures var n := Next(words, st);
      && Inv(words, n)
      && 0 <= n.charIndex <= |words[n.professionIndex]|
      && (n.isDeleting && !st.isDeleting ==> n.charIndex >= 1)
  {
    var n := Next(words, st);
    assert words[n.professionIndex] != [];
  }

  /**
   * What a step writes: the greeting, the first `charIndex` characters of the word being
   * typed (counting the step's own character), and the cursor.
   */
  lemma ShownIsPrefix(words: seq<string>, st: TypeState)
    requires Inv(words, st)
    ensures var n := Next(words, st);
      Shown(words, st) == Greeting + words[st.professionIndex][..n.charIndex] + Cursor
  {
  }

  /**
   * The delay rule: an ordinary typing step waits 150, an ordinary deleting step 75; the step
   * that completes the word waits 2000 and turns to deleting; the step that erases the last
   * character waits 500, turns back to typing and advances to the next word, wrapping around.
   */
  lemma DelayRule(words: seq<string>, st: TypeState)
    requires Inv(words, st)
    ensures var n := Next(words, st); var w := words[st.professionIndex];
      && (!st.isDeleting && n.isDeleting <==> !st.isDeleting && st.charIndex + 1 == |w|)
      && (!st.isDeleting && n.isDeleting ==>
            n.typingSpeed == 2000 && n.charIndex == |w| && n.professionIndex == st.professionIndex)
      && (st.isDeleting && !n.isDeleting <==> st.isDeleting && st.charIndex == 1)
      && (st.isDeleting && !n.isDeleting ==>
            n.typingSpeed == 500 && n.charIndex == 0 && n.professionIndex == (st.professionIndex + 1) % |words|)
      && (n.isDeleting == st.isDeleting ==>
            n.professionIndex == st.professionIndex &&
            if st.isDeleting then n.typingSpeed == 75 && n.charIndex == st.charIndex - 1
            else n.typingSpeed == 150 && n.charIndex == st.charIndex + 1)
  {
  }

  // ---------------------------------------------------------------------------
  // Runs of several steps

  function Run(words: seq<string>, st: TypeState, k: nat): (n: TypeState)
    requires 0 <= st.professionIndex < |words|
    ensures 0 <= n.professionIndex < |words|
    decreases k
  {
    if k == 0 then st else Run(words, Next(words, st), k - 1)
  }

  lemma {:induction false} RunAdd(words: seq<string>, st: TypeState, a: nat, b: nat)
    requires 0 <= st.professionIndex < |words|
    ensures Run(words, st, a + b) == Run(words, Run(words, st, a), b)
    decreases a
  {
    if a > 0 {
      RunAdd(words, Next(words, st), a - 1, b);
    }
  }

  /** Typing from a prefix of length `c` completes the word after `|w| - c` steps. */
  lemma {:induction false} TypeOut(words: seq<string>, st: TypeState)
    requires Inv(words, st) && !st.isDeleting
    ensures var w := words[st.professionIndex];
      Run(words, st, |w| - st.charIndex) == TypeState(st.professionIndex, |w|, true, FullWordPause)
    decreases |words[st.professionIndex]| - st.charIndex
  {
    var w := words[st.professionIndex];
    var n := Next(words, st);
    if st.charIndex + 1 < |w| {
      TypeOut(words, n);
    }
  }

  /** Deleting from a prefix of length `c` empties it after `c` steps and moves to the next word. */
  lemma {:induction false} EraseWord(words: seq<string>, st: TypeState)
    requires Inv(words, st) && st.isDeleting
    ensures Run(words, st, st.charIndex)
         == TypeState((st.professionIndex + 1) % |words|, 0, false, EmptyWordPause)
    decreases st.charIndex
  {
    var n := Next(words, st);
    if st.charIndex > 1 {
      EraseWord(words, n);
    }
  }

  /** One word takes `2 * |w|` steps: typed out, erased, and the next word is started. */
  lemma WordCycle(words: seq<string>, i: int, speed: int)
    requires 0 <= i < |words| && words[i] != []
    ensures Run(words, TypeState(i, 0, false, speed), 2 * |words[i]|)
         == TypeState((i + 1) % |words|, 0, false, EmptyWordPause)
  {
    var st := TypeState(i, 0, false, speed);
    var w := words[i];
    TypeOut(words, st);
    var full := TypeState(i, |w|, true, FullWordPause);
    EraseWord(words, full);
    RunAdd(words, st, |w|, |w|);
  }

  function CycleSteps(ws: seq<string>): nat {
    if ws == [] then 0 else 2 * |ws[0]| + CycleSteps(ws[1..])
  }

  /** The index after `i` in a list of `n` words, wrapping around at the end. */
  lemma NextIndex(i: int, n: int)
    requires 0 <= i < n
    ensures (i + 1) % n == if i + 1 < n then i + 1 else 0
  {
  }

  lemma CycleStepsFrom(words: seq<string>, i: int)
    requires 0 <= i < |words|
    ensures CycleSteps(words[i..]) == 2 * |words[i]| + CycleSteps(words[i + 1..])
  {
    assert words[i..][1..] == words[i + 1..];
  }

  /** After one word's cycle, a run of `rest` more steps goes on from the next word's start. */
  lemma WordThen(words: seq<string>, i: int, speed: int, rest: nat)
    requires 0 <= i < |words| && words[i] != []
    ensures Run(words, TypeState(i, 0, false, speed), 2 * |words[i]| + rest)
         == Run(words, TypeState((i + 1) % |words|, 0, false, EmptyWordPause), rest)
  {
    WordCycle(words, i, speed);
    RunAdd(words, TypeState(i, 0, false, speed), 2 * |words[i]|, rest);
  }

  /**
   * Periodicity: from the start of word `i`, once every remaining word has been typed and
   * erased the animation is back at the start of the first word.
   */
  lemma {:induction false} CycleFrom(words: seq<string>, i: int, speed: int)
    requires AllNonEmpty(words) && 0 <= i < |words|
    ensures Run(words, TypeState(i, 0, false, speed), CycleSteps(words[i..]))
         == TypeState(0, 0, false, EmptyWordPause)
    decreases |words| - i
  {
    CycleStepsFrom(words, i);
    WordThen(words, i, speed, CycleSteps(words[i + 1..]));
    NextIndex(i, |words|);
    if i + 1 < |words| {
      CycleFrom(words, i + 1, EmptyWordPause);
    } else {
      assert words[i + 1..] == [];
    }
  }

  /** The animation as it runs on the page: its step updates the four variables in place. */
  class Typewriter {
    const words: seq<string>
    var professionIndex: int
    var charIndex: int
    var isDeleting: bool
    var typingSpeed: int

    function Current(): TypeState
      reads this
    {
      TypeState(professionIndex, charIndex, isDeleting, typingSpeed)
    }

    ghost predicate Valid()
      reads this
    {
      0 <= professionIndex < |words|
    }

    constructor (words: seq<string>)
      requires |words| > 0
      ensures Valid() && this.words == words && Current() == Start
    {
      this.words := words;
      professionIndex, charIndex, isDeleting, typingSpeed := 0, 0, false, TypingDelay;
    }

    /** One call of `typeWriter`: returns the subtitle markup and the delay before the next call. */
    method Step() returns (html: string, delay: int)
      requires Valid()
      modifies this
      ensures Valid()
      ensures Current() == Next(words, old(Current()))
      ensures html == Shown(words, old(Current()))
      ensures delay == typingSpeed
    {
      var current := words[professionIndex];
      if isDeleting {
        html := Greeting + Substring(current, charIndex - 1) + Cursor;
        charIndex := charIndex - 1;
        typingSpeed := DeletingDelay;
      } else {
        html := Greeting + Substring(current, charIndex + 1) + Cursor;
        charIndex := charIndex + 1;
        typingSpeed := TypingDelay;
      }
      if !isDeleting && charIndex == |current| {
        typingSpeed := FullWordPause;
        isDeleting := true;
      } else if isDeleting && charIndex == 0 {
        isDeleting := false;
        professionIndex := (professionIndex + 1) % |words|;
        typingSpeed := EmptyWordPause;
      }
      delay := typingSpeed;
    }
  }

  /** The site's list satisfies what the bounds lemmas need. */
  lemma ProfessionsNonEmpty()
    ensures |Professions| == 7 && AllNonEmpty(Professions)
  {
  }
}
