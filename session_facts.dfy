/** What the transitions of the game state record guarantee, alone and over whole games. */
module SessionFacts {
  import opened Wrappers
  import opened Catalog
  import opened Session
  import Scoring

  /** Every catalog id is in the list. */
  ghost predicate Covers(matched: seq<nat>) {
    forall id: nat :: IsCatalogId(id) ==> id in matched
  }

  /** A correct match of the pending title keeps the invariant: the new id was neither matched
      nor outside the catalog, and the points it earns are between 5 and 9. */
  lemma CorrectMatchKeepsInv(s: Snapshot, movieId: nat)
    requires Inv(s) && s.selectedMovie == Some(movieId)
    ensures Inv(CorrectMatch(s, movieId))
  {
  }

  lemma IncorrectMatchKeepsInv(s: Snapshot)
    requires Inv(s)
    ensures Inv(IncorrectMatch(s))
  {
  }

  /** tryMatch evaluates exactly when both sides are selected. Then both selections end up
      cleared, a correct match is announced exactly when the ids are equal, and the invariant
      holds afterwards; otherwise the record is left as it was and nothing is announced. */
  lemma TryMatchEffect(s: Snapshot)
    requires Inv(s)
    ensures Inv(TryMatch(s))
    ensures !BothSelected(s) ==> TryMatch(s) == s && TryMatchFeedback(s) == None
    ensures BothSelected(s) ==> TryMatch(s).selectedMovie == None && TryMatch(s).selectedFrame == None
    ensures BothSelected(s) ==>
      TryMatchFeedback(s).Some? && (TryMatchFeedback(s).value.Correct? <==> s.selectedMovie == s.selectedFrame)
  {
  }

  /** Every gesture the page offers keeps the invariant. */
  lemma StepKeepsInv(s: Snapshot, a: Action)
    requires Inv(s) && Allowed(s, a)
    ensures Inv(Step(s, a))
  {
  }

  /** The invariant survives any sequence of offered gestures. */
  lemma {:induction false} RunKeepsInv(s: Snapshot, actions: seq<Action>)
    requires Inv(s) && AllowedRun(s, actions)
    ensures Inv(Run(s, actions))
    decreases |actions|
  {
    if actions != [] {
      StepKeepsInv(s, actions[0]);
      RunKeepsInv(Step(s, actions[0]), actions[1..]);
    }
  }

  /** From the starting record, whatever the player does, the score is never negative, the
      matched list has no repeats and holds only catalog ids, and it never outgrows the catalog. */
  lemma ReachableRecord(actions: seq<Action>)
    requires AllowedRun(Initial(), actions)
    ensures var r := Run(Initial(), actions);
      r.score >= 0 && r.streak >= 0 && NoDuplicates(r.matchedPairs) && AllCatalogIds(r.matchedPairs)
      && |r.matchedPairs| <= CatalogSize
  {
    RunKeepsInv(Initial(), actions);
    CoversCatalog(Run(Initial(), actions).matchedPairs);
  }

  /** The completion modal opens on exactly the evaluation that matches the last unmatched
      catalog id. */
  lemma CompletionIffLastPair(s: Snapshot)
    requires Inv(s) && BothSelected(s)
    ensures var f := TryMatchFeedback(s).value;
      (f.Correct? && f.complete) <==> (!Covers(s.matchedPairs) && Covers(TryMatch(s).matchedPairs))
  {
    CoversCatalog(s.matchedPairs);
    if s.selectedMovie == s.selectedFrame {
      var id := s.selectedMovie.value;
      CorrectMatchKeepsInv(s, id);
      CoversCatalog(TryMatch(s).matchedPairs);
    }
  }

  /** Once every catalog id is matched, no gesture but a restart can evaluate a correct match
      or change the matched list, so the completion modal opens once per game. */
  lemma NothingAfterCompletion(s: Snapshot, a: Action)
    requires Inv(s) && Covers(s.matchedPairs) && Allowed(s, a) && a != Restart
    ensures Step(s, a).matchedPairs == s.matchedPairs
    ensures StepFeedback(s, a).None? || StepFeedback(s, a).value.Wrong?
  {
  }

  /** Once every catalog id is matched, a game without a restart announces only wrong matches:
      the completion modal, which needs a correct match, does not open a second time. */
  lemma {:induction false} NoCorrectMatchAfterCompletion(s: Snapshot, actions: seq<Action>)
    requires Inv(s) && Covers(s.matchedPairs) && AllowedRun(s, actions) && Restart !in actions
    ensures forall k :: 0 <= k < |Announcements(s, actions)| ==> Announcements(s, actions)[k].Wrong?
    decreases |actions|
  {
    if actions != [] {
      var a := actions[0];
      assert a in actions;
      NothingAfterCompletion(s, a);
      StepKeepsInv(s, a);
      assert forall b :: b in actions[1..] ==> b in actions;
      NoCorrectMatchAfterCompletion(Step(s, a), actions[1..]);
    }
  }

  /** Without a restart the matched list only grows at its end. */
  lemma {:induction false} MatchedOnlyGrows(s: Snapshot, actions: seq<Action>)
    requires Restart !in actions
    ensures |s.matchedPairs| <= |Run(s, actions).matchedPairs|
    ensures Run(s, actions).matchedPairs[..|s.matchedPairs|] == s.matchedPairs
    decreases |actions|
  {
    if actions != [] {
      var t := Step(s, actions[0]);
      assert actions[0] in actions;
      assert |s.matchedPairs| <= |t.matchedPairs| && t.matchedPairs[..|s.matchedPairs|] == s.matchedPairs;
      assert forall a :: a in actions[1..] ==> a in actions;
      MatchedOnlyGrows(t, actions[1..]);
      var u := Run(t, actions[1..]).matchedPairs;
      assert u[..|s.matchedPairs|] == u[..|t.matchedPairs|][..|s.matchedPairs|];
    }
  }

  /** A frame that was matched earlier in the game still accepts clicks; with a title pending,
      clicking it is always a wrong match that costs the streak. */
  lemma MatchedFrameIsWrong(s: Snapshot, id: nat)
    requires Inv(s) && s.selectedMovie.Some? && id in s.matchedPairs
    ensures Allowed(s, ClickFrame(id))
    ensures StepFeedback(s, ClickFrame(id)) == Some(Wrong(id))
    ensures Step(s, ClickFrame(id)).streak == 0
  {
  }

  /** Starting a drag only sets the title, so a pending frame and a dragged title can be
      selected together with nothing evaluated, until the drop or the next click. */
  lemma DragLeavesPairPending()
    ensures var s := Run(Initial(), [ClickFrame(3), DragTitle(3)]);
      AllowedRun(Initial(), [ClickFrame(3), DragTitle(3)])
      && s.selectedMovie == Some(3) && s.selectedFrame == Some(3) && s.matchedPairs == [] && s.score == 0
  {
  }

  /** A short game: a correct pair, a wrong one, then a correct one. */
  lemma SampleGame()
    ensures var s := Run(Initial(), [ClickTitle(1), ClickFrame(1), ClickTitle(2), ClickFrame(3), ClickTitle(2), DropOnFrame(2)]);
      s.score == 8 && s.streak == 1 && s.matchedPairs == [1, 2] && s.selectedMovie == None
  {
  }
}
