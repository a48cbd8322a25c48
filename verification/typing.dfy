/**
  The hero subtitle's typing effect (`typeEffect`): it types a word one
  character per tick, deletes it again, and moves on to the next word,
  cycling through the list.
 */
module Typing {

  /** The words the page cycles through. */
  const Words: seq<string> := ["FullStack Web-Developer", "Graphic Designer", "Digital Marketing Expert"]

  /** `wordIndex`, `charIndex` and `isDeleting` between two ticks. */
  datatype TypeState = TypeState(wordIndex: nat, charIndex: int, deleting: bool)

  /** The state the page starts from. */
  const Initial: TypeState := TypeState(0, 0, false)

  /** One tick: the text displayed, the state for the next tick, and the delay before it in milliseconds. */
  datatype Tick = Tick(text: string, next: TypeState, delay: nat)

  /** Delays chosen by a tick, in milliseconds. */
  const TypeDelay: nat := 150
  const DeleteDelay: nat := 75
  const FullWordPause: nat := 2000
  const NextWordPause: nat := 500

  /**
    `s.slice(0, end)`: the first `end` characters, where a negative `end`
    counts back from the end of `s` and an `end` past the end is cut to it.
   */
  function SliceTo(s: string, end: int): (r: string)
    ensures r <= s
    ensures 0 <= end <= |s| ==> |r| == end
    ensures end >= |s| ==> r == s
    ensures end < 0 ==> |r| == (if |s| + end < 0 then 0 else |s| + end)
  {
    if end < 0 then (if |s| + end < 0 then [] else s[..|s| + end])
    else if end > |s| then s
    else s[..end]
  }

  /**
    One call of `typeEffect` as written. The text is a prefix of the current
    word: one character longer than `charIndex` while typing, one shorter
    while deleting. Showing the whole word while typing switches to deleting;
    showing nothing while deleting switches back to typing and moves to the
    next word, wrapping after the last. Either way `charIndex` then moves by
    exactly one in the new direction.
   */
  function TypeEffect(words: seq<string>, s: TypeState): (r: Tick)
    requires s.wordIndex < |words|
    ensures r.text == SliceTo(words[s.wordIndex], if s.deleting then s.charIndex - 1 else s.charIndex + 1)
    ensures r.text <= words[s.wordIndex]
    ensures r.next.wordIndex < |words|
    ensures !s.deleting ==> (r.next.deleting <==> r.text == words[s.wordIndex])
    ensures s.deleting ==> (!r.next.deleting <==> r.text == "")
    ensures r.next.wordIndex != s.wordIndex ==> s.deleting && r.text == ""
    ensures s.deleting && r.text == "" ==> r.next.wordIndex == (s.wordIndex + 1) % |words|
    ensures r.next.charIndex == (if r.next.deleting then s.charIndex - 1 else s.charIndex + 1)
    ensures r.delay == (if !s.deleting && r.next.deleting then FullWordPause
      else if s.deleting && !r.next.deleting then NextWordPause
      else if s.deleting then DeleteDelay else TypeDelay)
  {
    var word := words[s.wordIndex];
    var text := if s.deleting then SliceTo(word, s.charIndex - 1) else SliceTo(word, s.charIndex + 1);
    if !s.deleting && text == word then
      Tick(text, TypeState(s.wordIndex, s.charIndex - 1, true), FullWordPause)
    else if s.deleting && text == "" then
      Tick(text, TypeState((s.wordIndex + 1) % |words|, s.charIndex + 1, false), NextWordPause)
    else if s.deleting then
      Tick(text, TypeState(s.wordIndex, s.charIndex - 1, true), DeleteDelay)
    else
      Tick(text, TypeState(s.wordIndex, s.charIndex + 1, false), TypeDelay)
  }

  /** The state after `k` ticks of `typeEffect` as written. */
  function Run(words: seq<string>, s: TypeState, k: nat): (r: TypeState)
    requires s.wordIndex < |words|
    ensures r.wordIndex < |words|
    decreases k
  {
    if k == 0 then s else Run(words, TypeEffect(words, s).next, k - 1)
  }

  /**
    While a word is being typed, each tick shows one more character of it:
    after `k` ticks `charIndex` has grown by `k`, and the next tick shows the
    first `c + k + 1` characters.
   */
  lemma {:induction false} TypingRun(words: seq<string>, w: nat, c: nat, k: nat)
    requires w < |words| && c + k < |words[w]|
    ensures Run(words, TypeState(w, c, false), k) == TypeState(w, c + k, false)
    ensures TypeEffect(words, Run(words, TypeState(w, c, false), k)).text == words[w][..c + k + 1]
    decreases k
  {
    if k > 0 {
      var t := TypeEffect(words, TypeState(w, c, false));
      assert |t.text| == c + 1;
      TypingRun(words, w, c + 1, k - 1);
    }
  }

  /**
    While a word is being deleted, each tick shows one character fewer:
    after `k` ticks `charIndex` has dropped by `k`, and the next tick shows
    the first `c - k - 1` characters.
   */
  lemma {:induction false} DeletingRun(words: seq<string>, w: nat, c: nat, k: nat)
    requires w < |words| && k < c <= |words[w]| + 1
    ensures Run(words, TypeState(w, c, true), k) == TypeState(w, c - k, true)
    ensures TypeEffect(words, Run(words, TypeState(w, c, true), k)).text == words[w][..c - k - 1]
    decreases k
  {
    if k > 0 {
      var t := TypeEffect(words, TypeState(w, c, true));
      assert |t.text| == c - 1;
      DeletingRun(words, w, c - 1, k - 1);
    }
  }

  /** Running `a` ticks and then `b` more is running `a + b` ticks. */
  lemma {:induction false} RunAdditive(words: seq<string>, s: TypeState, a: nat, b: nat)
    requires s.wordIndex < |words|
    ensures Run(words, Run(words, s, a), b) == Run(words, s, a + b)
    decreases a
  {
    if a > 0 {
      RunAdditive(words, TypeEffect(words, s).next, a - 1, b);
    }
  }

  /**
    On the page's own words the effect as written skips characters. The
    23-character first word is typed out in full after 22 ticks, and the
    tick after that shows only 20 characters: the 22- and 21-character
    prefixes are never shown while deleting.
   */
  lemma {:induction false} TypeEffectSkipsCharacters()
    ensures |Words[0]| == 23
    ensures Run(Words, Initial, 22) == TypeState(0, 22, false)
    ensures TypeEffect(Words, TypeState(0, 22, false)).text == Words[0]
    ensures TypeEffect(Words, TypeState(0, 22, false)).next == TypeState(0, 21, true)
    ensures |TypeEffect(Words, TypeState(0, 21, true)).text| == 20
  {
    var w0 := Words[0];
    assert |w0| == 23;
    TypingRun(Words, 0, 0, 22);
    assert SliceTo(w0, 23) == w0;
  }

  /** 43 ticks in, the first word has been deleted down to `charIndex == 1`. */
  lemma {:induction false} FirstWordDeleted()
    ensures Run(Words, Initial, 43) == TypeState(0, 1, true)
  {
    assert |Words[0]| == 23;
    TypeEffectSkipsCharacters();
    RunAdditive(Words, Initial, 22, 1);
    DeletingRun(Words, 0, 21, 20);
    RunAdditive(Words, Initial, 23, 20);
  }

  /**
    After the first word has been deleted, the effect moves to the second
    word with `charIndex == 2`, so that word appears three characters at a
    time ("Gra") instead of one.
   */
  lemma {:induction false} NextWordStartsAtThirdCharacter()
    ensures Run(Words, Initial, 44) == TypeState(1, 2, false)
    ensures TypeEffect(Words, TypeState(1, 2, false)).text == "Gra"
  {
    FirstWordDeleted();
    RunAdditive(Words, Initial, 43, 1);
    DeletedWordAdvances();
    SecondWordFirstTick();
  }

  /** Deleting the first word's last character moves on to the second word. */
  lemma {:induction false} DeletedWordAdvances()
    ensures TypeEffect(Words, TypeState(0, 1, true)).next == TypeState(1, 2, false)
  {
    assert SliceTo(Words[0], 0) == "";
  }

  /** The second word's first tick at `charIndex == 2` shows three characters. */
  lemma {:induction false} SecondWordFirstTick()
    ensures TypeEffect(Words, TypeState(1, 2, false)).text == "Gra"
  {
    var w1 := Words[1];
    assert |w1| == 16;
    assert SliceTo(w1, 3) == w1[..3];
    assert w1[..3] == "Gra";
  }

  /**
    What the state of the corrected effect always satisfies: `charIndex` is
    the length of the text last shown, which is short of the whole word while
    typing and not empty while deleting.
   */
  predicate FixedInv(words: seq<string>, s: TypeState) {
    && s.wordIndex < |words|
    && 0 <= s.charIndex <= |words[s.wordIndex]|
    && (s.deleting ==> s.charIndex >= 1)
    && (!s.deleting ==> s.charIndex < |words[s.wordIndex]|)
  }

  /** No word in the list is empty, as is the case for the page's words. */
  predicate NoEmptyWord(words: seq<string>) {
    forall i :: 0 <= i < |words| ==> |words[i]| > 0
  }

  /**
    The corrected effect: the same tick, except that `charIndex` is set to
    the length of the text just shown. Each tick then shows exactly one
    character more or one fewer than the tick before, and the phase and word
    changes are those of the original.
   */
  function TypeEffectFixed(words: seq<string>, s: TypeState): (r: Tick)
    requires NoEmptyWord(words) && FixedInv(words, s)
    ensures FixedInv(words, r.next)
    ensures r.next.charIndex == |r.text|
    ensures |r.text| == (if s.deleting then s.charIndex - 1 else s.charIndex + 1)
    ensures r.text <= words[s.wordIndex]
    ensures !s.deleting ==> (r.next.deleting <==> r.text == words[s.wordIndex])
    ensures s.deleting ==> (!r.next.deleting <==> r.text == "")
    ensures r.next.wordIndex == (if s.deleting && r.text == "" then (s.wordIndex + 1) % |words| else s.wordIndex)
  {
    var t := TypeEffect(words, s);
    Tick(t.text, t.next.(charIndex := |t.text|), t.delay)
  }

  /** The corrected effect starts in a state its invariant admits. */
  lemma {:induction false} FixedInitial()
    ensures NoEmptyWord(Words) && FixedInv(Words, Initial)
  {
  }

  /** Under the corrected effect, two consecutive ticks differ by exactly one character. */
  lemma {:induction false} FixedTicksOneCharApart(words: seq<string>, s: TypeState)
    requires NoEmptyWord(words) && FixedInv(words, s)
    ensures var t1 := TypeEffectFixed(words, s);
      var t2 := TypeEffectFixed(words, t1.next);
      |t2.text| == |t1.text| + 1 || |t2.text| + 1 == |t1.text|
  {
  }
}
