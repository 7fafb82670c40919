/** The game state object and the handlers that update it in place. Every handler is proved to
    leave the object in the record the matching function of `Session` computes. */
module Game {
  import opened Wrappers
  import opened Catalog
  import opened Session
  import Scoring
  import Text
  import SessionFacts

  class GameState {
    var userName: string
    var score: int
    var streak: int
    var selectedMovie: Option<nat>
    var selectedFrame: Option<nat>
    var matchedPairs: seq<nat>

    /** The fields as a record. */
    function State(): Snapshot
      reads this
    {
      Snapshot(userName, score, streak, selectedMovie, selectedFrame, matchedPairs)
    }

    ghost predicate Valid()
      reads this
    {
      Inv(State())
    }

    /** The record the page starts with: no name, no points, nothing selected or matched. */
    constructor ()
      ensures Valid() && State() == Initial()
    {
      userName, score, streak := "", 0, 0;
      selectedMovie, selectedFrame := None, None;
      matchedPairs := [];
    }

    /** submitName: the trimmed input becomes the name unless it is empty. */
    method SubmitName(input: string)
      requires Valid()
      modifies this
      ensures Valid() && State() == Session.SubmitName(old(State()), input)
      ensures Text.AllWhitespace(input) ==> State() == old(State())
    {
      var name := Text.Trim(input);
      if name == [] {
        return;
      }
      userName := name;
    }

    /** selectMovie: the clicked title becomes the pending title, then a match is tried. */
    method SelectMovie(id: nat) returns (feedback: Option<Feedback>)
      requires Valid() && IsCatalogId(id) && id !in matchedPairs
      modifies this
      ensures Valid()
      ensures State() == Step(old(State()), ClickTitle(id)) && feedback == StepFeedback(old(State()), ClickTitle(id))
    {
      selectedMovie := Some(id);
      feedback := TryMatch();
    }

    /** selectFrame: the clicked frame becomes the pending frame, then a match is tried. */
    method SelectFrame(id: nat) returns (feedback: Option<Feedback>)
      requires Valid() && IsCatalogId(id)
      modifies this
      ensures Valid()
      ensures State() == Step(old(State()), ClickFrame(id)) && feedback == StepFeedback(old(State()), ClickFrame(id))
    {
      selectedFrame := Some(id);
      feedback := TryMatch();
    }

    /** handleDragStart: the dragged title becomes the pending title; nothing is evaluated. */
    method HandleDragStart(id: nat)
      requires Valid() && IsCatalogId(id) && id !in matchedPairs
      modifies this
      ensures Valid()
      ensures State() == Step(old(State()), DragTitle(id)) && StepFeedback(old(State()), DragTitle(id)) == None
    {
      selectedMovie := Some(id);
    }

    /** handleDropOnFrame: the frame dropped on becomes the pending frame, then a match is tried. */
    method HandleDropOnFrame(id: nat) returns (feedback: Option<Feedback>)
      requires Valid() && IsCatalogId(id)
      modifies this
      ensures Valid()
      ensures State() == Step(old(State()), DropOnFrame(id)) && feedback == StepFeedback(old(State()), DropOnFrame(id))
    {
      selectedFrame := Some(id);
      feedback := TryMatch();
    }

    /** resetSelection(except): clears the selections other than the one named. */
    method ResetSelection(except: Option<Side>)
      modifies this
      ensures State() == Session.ResetSelection(old(State()), except)
      ensures old(Valid()) ==> Valid()
    {
      if except != Some(MovieSide) {
        selectedMovie := None;
      }
      if except != Some(FrameSide) {
        selectedFrame := None;
      }
    }

    /** tryMatch: checks the pending pair when both sides are set, and does nothing otherwise. */
    method TryMatch() returns (feedback: Option<Feedback>)
      requires Valid()
      modifies this
      ensures Valid()
      ensures State() == Session.TryMatch(old(State())) && feedback == TryMatchFeedback(old(State()))
      ensures feedback.Some? <==> old(BothSelected(State()))
      ensures feedback.Some? ==> selectedMovie == None && selectedFrame == None
    {
      SessionFacts.TryMatchEffect(State());
      if selectedMovie.Some? && selectedFrame.Some? {
        var f := CheckMatch(selectedMovie.value, selectedFrame.value);
        feedback := Some(f);
      } else {
        feedback := None;
      }
    }

    /** checkMatch: equal ids go to the correct-match handler, others to the incorrect one. */
    method CheckMatch(movieId: nat, frameId: nat) returns (feedback: Feedback)
      requires Valid() && selectedMovie == Some(movieId) && selectedFrame == Some(frameId)
      modifies this
      ensures Valid()
      ensures State() == Session.CheckMatch(old(State()), movieId, frameId)
      ensures feedback == CheckFeedback(old(State()), movieId, frameId)
      ensures feedback.Correct? <==> movieId == frameId
    {
      if movieId == frameId {
        var points, complete := HandleCorrectMatch(movieId);
        feedback := Correct(movieId, points, complete);
      } else {
        HandleIncorrectMatch(frameId);
        feedback := Wrong(frameId);
      }
    }

    /** handleCorrectMatch: raises the streak, adds the tier's points, appends the id, clears
        both selections and reports whether the matched list now has the catalog's length. */
    method HandleCorrectMatch(movieId: nat) returns (points: nat, complete: bool)
      requires Valid() && selectedMovie == Some(movieId)
      modifies this
      ensures Valid() && State() == CorrectMatch(old(State()), movieId)
      ensures points == Scoring.Points(streak) && score == old(score) + points
      ensures complete <==> |matchedPairs| == CatalogSize
    {
      SessionFacts.CorrectMatchKeepsInv(State(), movieId);
      streak := streak + 1;
      points := 5;
      if streak >= 10 {
        points := 9;
      } else if streak >= 5 {
        points := 7;
      }
      score := score + points;
      matchedPairs := matchedPairs + [movieId];
      selectedMovie := None;
      selectedFrame := None;
      complete := |matchedPairs| == CatalogSize;
    }

    /** handleIncorrectMatch: loses the streak, takes 2 points without going below 0, and clears
        both selections. */
    method HandleIncorrectMatch(frameId: nat)
      requires Valid()
      modifies this
      ensures Valid() && State() == IncorrectMatch(old(State()))
    {
      streak := 0;
      score := if score - 2 > 0 then score - 2 else 0;
      selectedMovie := None;
      selectedFrame := None;
    }

    /** The two restart buttons: the record goes back to the starting one. */
    method Restart()
      modifies this
      ensures Valid() && State() == Initial()
    {
      userName, score, streak := "", 0, 0;
      selectedMovie, selectedFrame := None, None;
      matchedPairs := [];
    }
  }
}
