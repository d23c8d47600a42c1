/**
 * The patterns dialog: one button per pattern. Clicking the armed pattern
 * disarms it; clicking any other arms that one instead.
 */
module PatternsComponent {
  import opened Wrappers
  import opened GameData
  import opened PatternCreation

  /** `onClickPattern(p)` on the session. */
  function PatternClicked(s: Session, p: ActivePattern): (t: Session)
    ensures s.active == Some(p) ==> t == Session(None, Some(p))
    ensures s.active != Some(p) ==> t == Session(Some(p), s.last)
  {
    if s.active == Some(p) then Cancelled(s) else Started(s, p)
  }

  /**
   * After a click on `p`, `p` is armed exactly when it was not armed before,
   * and no other pattern is armed. Arming remembers nothing; disarming
   * remembers `p` as the last pattern.
   */
  lemma ClickArmsOrDisarms(s: Session, p: ActivePattern)
    ensures PatternClicked(s, p).active.Some? <==> s.active != Some(p)
    ensures PatternClicked(s, p).active.Some? ==> PatternClicked(s, p).active == Some(p)
    ensures s.active != Some(p) ==> PatternClicked(s, p).last == s.last
    ensures s.active == Some(p) ==> PatternClicked(s, p).last == Some(p)
  {
  }

  /** Two clicks on the same button leave nothing armed and `p` remembered. */
  lemma ClickTwice(s: Session, p: ActivePattern)
    requires s.active != Some(p)
    ensures PatternClicked(PatternClicked(s, p), p) == Session(None, Some(p))
  {
  }

  /**
   * Switching straight from one armed pattern to another arms the new one
   * without recording the old one as last.
   */
  lemma SwitchKeepsLast(s: Session, p: ActivePattern, q: ActivePattern)
    requires s.active == Some(q) && p != q
    ensures PatternClicked(s, p) == Session(Some(p), s.last)
  {
  }

  class Patterns {
    const patternCreation: PatternCreationService

    constructor (patternCreation: PatternCreationService)
      ensures this.patternCreation == patternCreation
    {
      this.patternCreation := patternCreation;
    }

    /** `activePattern`, read through from the service. */
    function ActivePattern(): Option<PatternCreation.ActivePattern>
      reads this, patternCreation
    {
      patternCreation.activePattern
    }

    /** `isPatternCreateInProgress`, read through from the service. */
    function IsPatternCreateInProgress(): (inProgress: bool)
      reads this, patternCreation
      ensures inProgress <==> ActivePattern().Some?
    {
      patternCreation.IsPatternCreateInProgress()
    }

    /** `onClickPattern(p)`: cancels `p` if it is armed, otherwise arms it. */
    method OnClickPattern(p: PatternCreation.ActivePattern)
      modifies patternCreation`activePattern, patternCreation`lastActivePattern, patternCreation.gameData`message
      ensures patternCreation.CurrentSession() == PatternClicked(old(patternCreation.CurrentSession()), p)
      ensures old(patternCreation.activePattern) == Some(p) ==> patternCreation.gameData.message == None
      ensures old(patternCreation.activePattern) != Some(p) ==>
        patternCreation.gameData.message == Some(Message("Generating " + Name(p), "pattern-creation-service"))
    {
      if patternCreation.activePattern == Some(p) {
        patternCreation.CancelPatternCreate();
      } else {
        patternCreation.StartPatternCreate(p);
      }
    }
  }
}
