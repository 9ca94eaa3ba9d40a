/** The splash screen of src/components/LoadingIntro.tsx. A 50 ms interval
    reveals growing prefixes of a fixed two-line text and sets a progress
    percentage; the first firing after the whole text was shown clears the
    interval and schedules the fade-out (1800 ms), whose handler schedules the
    `onComplete` callback (1200 ms). Timer firings are the events; `index` is the
    interval callback's closure counter. */
module LoadingIntro {
  import opened Options
  import opened Seqs

  const TitleText: string := "Welcome to the Dataverse"
  const SubtitleText: string := "Curated, calculated, cinematic."
  const FullText: string := TitleText + "\n" + SubtitleText

  /** Which timer is live. */
  datatype Phase =
    | Typing            // the typing interval runs
    | AwaitingFade      // interval cleared, the 1800 ms timeout is pending
    | AwaitingComplete  // `fadingOut` set, the 1200 ms timeout is pending
    | Done              // `onComplete` has been called

  datatype Splash = Splash(
    index: nat,
    currentText: string,
    progress: real,
    fadingOut: bool,
    phase: Phase,
    /** how many times `onComplete` has been called */
    completions: nat)

  datatype Event = TypingTick | FadeTimeout | CompleteTimeout

  function Init(): Splash
  {
    Splash(0, "", 0.0, false, Typing, 0)
  }

  /** `(index / fullText.length) * 100`, the width of the progress bar. */
  function Progress(i: nat): (r: real)
    requires i <= |FullText|
    ensures 0.0 <= r <= 100.0
    ensures i == |FullText| <==> r == 100.0
    ensures i == 0 <==> r == 0.0
  {
    (i as real / |FullText| as real) * 100.0
  }

  lemma ProgressMonotone(i: nat, j: nat)
    requires i <= j <= |FullText|
    ensures Progress(i) <= Progress(j)
  {
    var n := |FullText| as real;
    assert i as real / n <= j as real / n;
  }

  /** Whether the event is the call of `onComplete`: the 1200 ms timeout
      firing while it is pending. */
  predicate Fires(s: Splash, e: Event)
  {
    e == CompleteTimeout && s.phase == AwaitingComplete
  }

  function Step(s: Splash, e: Event): Splash
  {
    match e
    case TypingTick =>
      if s.phase != Typing then s
      else if s.index <= |FullText| then
        s.(currentText := FullText[..s.index], progress := Progress(s.index), index := s.index + 1)
      else s.(phase := AwaitingFade)
    case FadeTimeout =>
      if s.phase != AwaitingFade then s else s.(fadingOut := true, phase := AwaitingComplete)
    case CompleteTimeout =>
      if s.phase != AwaitingComplete then s else s.(phase := Done, completions := s.completions + 1)
  }

  predicate Inv(s: Splash)
  {
    && s.index <= |FullText| + 1
    && (s.index == 0 ==> s.currentText == "" && s.progress == 0.0)
    && (s.index > 0 ==> s.currentText == FullText[..s.index - 1] && s.progress == Progress(s.index - 1))
    && (s.phase != Typing ==> s.index == |FullText| + 1)
    && (s.fadingOut <==> s.phase == AwaitingComplete || s.phase == Done)
    && s.completions == (if s.phase == Done then 1 else 0)
  }

  lemma InitInv()
    ensures Inv(Init())
  {
  }

  /** Every event keeps the invariant; the progress never decreases and stays
      within [0, 100]; `fadingOut` never goes back to false. */
  lemma StepKeepsInv(s: Splash, e: Event)
    requires Inv(s)
    ensures Inv(Step(s, e))
    ensures s.progress <= Step(s, e).progress
    ensures 0.0 <= Step(s, e).progress <= 100.0
    ensures s.fadingOut ==> Step(s, e).fadingOut
  {
    if e == TypingTick && s.phase == Typing && 0 < s.index <= |FullText| {
      ProgressMonotone(s.index - 1, s.index);
    }
  }

  /** Once the interval is cleared the whole text is on screen at 100 %. */
  lemma FullTextShownWhenTypingEnds(s: Splash)
    requires Inv(s) && s.phase != Typing
    ensures s.currentText == FullText && s.progress == 100.0
  {
  }

  /** `onComplete` is called only after the full text was shown and
      `fadingOut` became true, and never a second time. */
  lemma CompleteFiresOnce(s: Splash, e: Event)
    requires Inv(s)
    ensures Fires(s, e) ==> s.fadingOut && s.currentText == FullText && Step(s, e).completions == 1
    ensures s.completions == 1 ==> !Fires(s, e) && Step(s, e).completions == 1
    ensures !Fires(s, e) ==> Step(s, e).completions == s.completions
  {
  }

  function Ticks(s: Splash, k: nat): Splash
    decreases k
  {
    if k == 0 then s else Step(Ticks(s, k - 1), TypingTick)
  }

  /** After k interval firings (k at most the text length plus one) the
      first k - 1 characters are shown; typing ends on the next firing. */
  lemma {:induction false} TicksReveal(k: nat)
    requires k <= |FullText| + 1
    ensures var s := Ticks(Init(), k);
      && Inv(s)
      && s.phase == Typing
      && s.index == k
      && s.currentText == FullText[..Max(k - 1, 0)]
      && Ticks(Init(), k + 1).phase == (if k == |FullText| + 1 then AwaitingFade else Typing)
    decreases k
  {
    if k > 0 {
      TicksReveal(k - 1);
      StepKeepsInv(Ticks(Init(), k - 1), TypingTick);
    }
  }

  /** The whole splash timeline: typing, the fade-out, then a single call of
      `onComplete` with the full text shown. */
  lemma SplashTimeline()
    ensures var typed := Ticks(Init(), |FullText| + 2);
      && typed.phase == AwaitingFade
      && typed.currentText == FullText
      && !typed.fadingOut
      && var faded := Step(typed, FadeTimeout);
      && faded.fadingOut
      && Fires(faded, CompleteTimeout)
      && Step(faded, CompleteTimeout).completions == 1
  {
    TicksReveal(|FullText| + 1);
    var s := Ticks(Init(), |FullText| + 1);
    StepKeepsInv(s, TypingTick);
    assert FullText[..|FullText|] == FullText;
  }

  // Splitting the shown text at '\n' into title and subtitle
  // (`currentText.split('\n')`, taking parts 0 and 1, or '' when absent).

  /** The text before the first '\n' (all of it when there is none). */
  function BeforeNewline(s: string): string
    decreases |s|
  {
    if |s| == 0 || s[0] == '\n' then "" else [s[0]] + BeforeNewline(s[1..])
  }

  /** The text after the first '\n', if there is one. */
  function AfterNewline(s: string): Option<string>
    decreases |s|
  {
    if |s| == 0 then None else if s[0] == '\n' then Some(s[1..]) else AfterNewline(s[1..])
  }

  function CurrentTitle(text: string): string
  {
    BeforeNewline(text)
  }

  function CurrentSubtitle(text: string): string
  {
    match AfterNewline(text)
    case None => ""
    case Some(rest) => BeforeNewline(rest)
  }

  lemma {:induction false} NoNewlineSplit(a: string)
    requires forall i :: 0 <= i < |a| ==> a[i] != '\n'
    ensures BeforeNewline(a) == a && AfterNewline(a) == None
    decreases |a|
  {
    if |a| > 0 {
      NoNewlineSplit(a[1..]);
      assert [a[0]] + a[1..] == a;
    }
  }

  lemma {:induction false} NewlineSplit(a: string, b: string)
    requires forall i :: 0 <= i < |a| ==> a[i] != '\n'
    ensures BeforeNewline(a + "\n" + b) == a && AfterNewline(a + "\n" + b) == Some(b)
    decreases |a|
  {
    var s := a + "\n" + b;
    if |a| == 0 {
      assert s == "\n" + b;
      assert s[1..] == b;
    } else {
      NewlineSplit(a[1..], b);
      assert s[1..] == a[1..] + "\n" + b;
      assert [a[0]] + a[1..] == a;
    }
  }

  /** While the splash types, the title shows a prefix of `TitleText`, and the
      subtitle stays empty until the '\n' and a first character after it are
      on screen, then shows a prefix of `SubtitleText`. */
  lemma DisplayedSplit(k: nat)
    requires k <= |FullText|
    ensures CurrentTitle(FullText[..k]) == TitleText[..Min(k, |TitleText|)]
    ensures CurrentSubtitle(FullText[..k]) ==
      (if k <= |TitleText| + 1 then "" else SubtitleText[..k - |TitleText| - 1])
  {
    assert forall i :: 0 <= i < |TitleText| ==> TitleText[i] != '\n';
    assert forall i :: 0 <= i < |SubtitleText| ==> SubtitleText[i] != '\n';
    var p := FullText[..k];
    if k <= |TitleText| {
      assert p == TitleText[..k];
      NoNewlineSplit(p);
    } else {
      var tail := SubtitleText[..k - |TitleText| - 1];
      assert p == TitleText + "\n" + tail;
      NewlineSplit(TitleText, tail);
      NoNewlineSplit(tail);
    }
  }
}
