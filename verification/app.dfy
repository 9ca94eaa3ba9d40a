/** The root component of src/App.tsx: `showIntro` starts true, the splash's
    `onComplete` sets it to false, and the main content is mounted only then,
    in a fixed order. The splash's timer events are delivered through the root;
    once the splash is unmounted its events no longer reach anything. */
module App {
  import LoadingIntro

  datatype Component =
    | LoadingIntroScreen
    | Header
    | CursorTrail
    | HeroSection
    | Projects
    | About
    | Experience
    | Education
    | Contact

  /** The order in which the main content mounts, header and trail first, then
      the sections inside `<main>`. */
  const MainContent: seq<Component> :=
    [Header, CursorTrail, HeroSection, Projects, About, Experience, Education, Contact]

  datatype AppState = AppState(showIntro: bool, splash: LoadingIntro.Splash)

  function Init(): AppState
  {
    AppState(true, LoadingIntro.Init())
  }

  /** The components on screen: the splash or the main content, never both. */
  function Mounted(a: AppState): (r: seq<Component>)
    ensures LoadingIntroScreen in r <==> a.showIntro
    ensures forall c :: c in MainContent ==> (c in r <==> !a.showIntro)
    ensures !a.showIntro ==> r == MainContent
  {
    if a.showIntro then [LoadingIntroScreen] else MainContent
  }

  function Step(a: AppState, e: LoadingIntro.Event): AppState
  {
    if !a.showIntro then a
    else
      AppState(!LoadingIntro.Fires(a.splash, e), LoadingIntro.Step(a.splash, e))
  }

  function Run(a: AppState, events: seq<LoadingIntro.Event>): AppState
    decreases |events|
  {
    if |events| == 0 then a else Run(Step(a, events[0]), events[1..])
  }

  /** `showIntro` is a one-way latch: no event sets it back to true, and it
      drops to false exactly on the call of `onComplete`. */
  lemma IntroLatch(a: AppState, e: LoadingIntro.Event)
    ensures !a.showIntro ==> !Step(a, e).showIntro && Step(a, e) == a
    ensures a.showIntro ==> (Step(a, e).showIntro <==> !LoadingIntro.Fires(a.splash, e))
  {
  }

  predicate Inv(a: AppState)
  {
    && LoadingIntro.Inv(a.splash)
    && (a.showIntro <==> a.splash.phase != LoadingIntro.Done)
  }

  /** Whatever the sequence of timer firings, the main content is mounted only
      once the splash has shown its whole text, faded out and called
      `onComplete` exactly once. */
  lemma {:induction false} ContentOnlyAfterSplash(a: AppState, events: seq<LoadingIntro.Event>)
    requires Inv(a)
    ensures var r := Run(a, events);
      && Inv(r)
      && (Header in Mounted(r) ==>
            r.splash.currentText == LoadingIntro.FullText
            && r.splash.fadingOut
            && r.splash.completions == 1)
    decreases |events|
  {
    if |events| > 0 {
      var e := events[0];
      if a.showIntro {
        LoadingIntro.StepKeepsInv(a.splash, e);
      }
      ContentOnlyAfterSplash(Step(a, e), events[1..]);
    } else {
      if !a.showIntro {
        LoadingIntro.FullTextShownWhenTypingEnds(a.splash);
      }
    }
  }

  lemma InitInv()
    ensures Inv(Init())
  {
  }
}
