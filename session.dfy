/** The game state record and its transitions as values: what every handler of the game does to
    the record, stripped of its effects on the page. */
module Session {
  import opened Wrappers
  import opened Catalog
  import Scoring
  import Text

  /** A copy of the game state record: the player's name, score, streak, the pending title and
      frame selections and the list of matched ids in the order they were matched. */
  datatype Snapshot = Snapshot(
    userName: string,
    score: int,
    streak: int,
    selectedMovie: Option<nat>,
    selectedFrame: Option<nat>,
    matchedPairs: seq<nat>)

  /** The record the game starts from and restarts to: no name, no points, no streak, nothing
      selected and nothing matched. It already satisfies the invariant. */
  function Initial(): (r: Snapshot)
    ensures Inv(r)
  {
    Snapshot("", 0, 0, None, None, [])
  }

  /** What the page announces after an evaluation: a correct match with the points awarded and
      whether it completed the game, or a wrong match on the given frame. */
  datatype Feedback = Correct(movieId: nat, points: nat, complete: bool) | Wrong(frameId: nat)

  /** Which selection `resetSelection` keeps. */
  datatype Side = MovieSide | FrameSide

  /** The invariant every reachable record satisfies. The score is never negative and is bounded
      by the streak from below and by 9 points per matched pair from above; the streak counts
      matches; the matched list holds catalog ids without repeats; a pending title is an
      unmatched catalog id and a pending frame a catalog id. */
  predicate Inv(s: Snapshot) {
    && 0 <= s.streak <= |s.matchedPairs|
    && 0 <= s.score
    && 5 * s.streak <= s.score <= 9 * |s.matchedPairs|
    && NoDuplicates(s.matchedPairs)
    && AllCatalogIds(s.matchedPairs)
    && (s.selectedMovie.Some? ==> IsCatalogId(s.selectedMovie.value) && s.selectedMovie.value !in s.matchedPairs)
    && (s.selectedFrame.Some? ==> IsCatalogId(s.selectedFrame.value))
  }

  /** handleCorrectMatch: one more in the streak, the tier's points, the id appended, both
      selections cleared. */
  function CorrectMatch(s: Snapshot, movieId: nat): (r: Snapshot)
    ensures r.userName == s.userName
    ensures r.streak == s.streak + 1 && r.score - s.score == Scoring.Points(r.streak)
    ensures |r.matchedPairs| == |s.matchedPairs| + 1
    ensures r.matchedPairs[..|s.matchedPairs|] == s.matchedPairs && r.matchedPairs[|s.matchedPairs|] == movieId
    ensures r.selectedMovie == None && r.selectedFrame == None
  {
    var streak := s.streak + 1;
    Snapshot(s.userName, s.score + Scoring.Points(streak), streak, None, None, s.matchedPairs + [movieId])
  }

  /** handleIncorrectMatch: the streak is lost, 2 points are taken but the score stops at 0, the
      matched list stays and both selections are cleared. */
  function IncorrectMatch(s: Snapshot): (r: Snapshot)
    ensures r.userName == s.userName && r.matchedPairs == s.matchedPairs
    ensures r.streak == 0
    ensures r.score >= 0 && r.score >= s.score - 2 && (r.score == 0 || r.score == s.score - 2)
    ensures r.selectedMovie == None && r.selectedFrame == None
  {
    Snapshot(s.userName, if s.score - 2 > 0 then s.score - 2 else 0, 0, None, None, s.matchedPairs)
  }

  /** checkMatch: equal ids are a correct match of that id, anything else a wrong one. */
  function CheckMatch(s: Snapshot, movieId: nat, frameId: nat): (r: Snapshot)
    ensures movieId == frameId <==> |r.matchedPairs| == |s.matchedPairs| + 1
    ensures movieId != frameId ==> r.matchedPairs == s.matchedPairs && r.streak == 0
    ensures r.userName == s.userName && r.selectedMovie == None && r.selectedFrame == None
  {
    if movieId == frameId then CorrectMatch(s, movieId) else IncorrectMatch(s)
  }

  /** The announcement checkMatch leads to. */
  function CheckFeedback(s: Snapshot, movieId: nat, frameId: nat): (f: Feedback)
    ensures f.Correct? <==> movieId == frameId
    ensures f.Correct? ==> f.movieId == movieId && f.points == Scoring.Points(s.streak + 1)
    ensures f.Wrong? ==> f.frameId == frameId
  {
    if movieId == frameId then
      Correct(movieId, Scoring.Points(s.streak + 1), |s.matchedPairs| + 1 == CatalogSize)
    else
      Wrong(frameId)
  }

  /** True when tryMatch evaluates: both selections are set. */
  predicate BothSelected(s: Snapshot) {
    s.selectedMovie.Some? && s.selectedFrame.Some?
  }

  /** tryMatch: evaluate the pending pair when both sides are selected, otherwise nothing. */
  function TryMatch(s: Snapshot): (r: Snapshot)
    ensures !BothSelected(s) ==> r == s
    ensures BothSelected(s) ==> r.selectedMovie == None && r.selectedFrame == None && r.userName == s.userName
    ensures BothSelected(s) ==>
      (r.matchedPairs == s.matchedPairs + [s.selectedMovie.value] <==> s.selectedMovie == s.selectedFrame)
  {
    if BothSelected(s) then CheckMatch(s, s.selectedMovie.value, s.selectedFrame.value) else s
  }

  function TryMatchFeedback(s: Snapshot): Option<Feedback> {
    if BothSelected(s) then Some(CheckFeedback(s, s.selectedMovie.value, s.selectedFrame.value)) else None
  }

  /** resetSelection(except): clear the title unless it is kept, clear the frame unless it is kept. */
  function ResetSelection(s: Snapshot, except: Option<Side>): (r: Snapshot)
    ensures r.selectedMovie == (if except == Some(MovieSide) then s.selectedMovie else None)
    ensures r.selectedFrame == (if except == Some(FrameSide) then s.selectedFrame else None)
    ensures r == s.(selectedMovie := r.selectedMovie, selectedFrame := r.selectedFrame)
  {
    s.(selectedMovie := if except != Some(MovieSide) then None else s.selectedMovie,
       selectedFrame := if except != Some(FrameSide) then None else s.selectedFrame)
  }

  /** submitName: a name that trims to nothing is ignored, otherwise the trimmed name is kept. */
  function SubmitName(s: Snapshot, input: string): (r: Snapshot)
    ensures Text.AllWhitespace(input) ==> r == s
    ensures !Text.AllWhitespace(input) ==> r == s.(userName := Text.Trim(input)) && r.userName != []
  {
    Text.TrimEmptyIff(input);
    var name := Text.Trim(input);
    if name == [] then s else s.(userName := name)
  }

  /** The player's gestures and the handler each one runs. */
  datatype Action =
    | ClickTitle(id: nat)      // selectMovie
    | ClickFrame(id: nat)      // selectFrame
    | DragTitle(id: nat)       // handleDragStart
    | DropOnFrame(id: nat)     // handleDropOnFrame
    | EnterName(input: string) // submitName
    | Restart                  // either restart button

  /** The gestures the page offers: titles are listed only while unmatched, and every title and
      frame carries a catalog id. */
  predicate Allowed(s: Snapshot, a: Action) {
    match a
    case ClickTitle(id) => IsCatalogId(id) && id !in s.matchedPairs
    case DragTitle(id) => IsCatalogId(id) && id !in s.matchedPairs
    case ClickFrame(id) => IsCatalogId(id)
    case DropOnFrame(id) => IsCatalogId(id)
    case EnterName(_) => true
    case Restart => true
  }

  /** The record after one gesture. Selecting a title or a frame, or dropping on a frame, sets that
      side and then tries a match; starting a drag only sets the title. */
  function Step(s: Snapshot, a: Action): (r: Snapshot)
    ensures a.DragTitle? ==> r == s.(selectedMovie := Some(a.id))
    ensures a.ClickTitle? || a.ClickFrame? || a.DropOnFrame? ==>
      r.userName == s.userName && (r.matchedPairs == s.matchedPairs || r.matchedPairs == s.matchedPairs + [a.id])
    ensures a.EnterName? ==> r.matchedPairs == s.matchedPairs && r.score == s.score && r.streak == s.streak
    ensures a.Restart? ==> r == Initial()
  {
    match a
    case ClickTitle(id) => TryMatch(s.(selectedMovie := Some(id)))
    case ClickFrame(id) => TryMatch(s.(selectedFrame := Some(id)))
    case DragTitle(id) => s.(selectedMovie := Some(id))
    case DropOnFrame(id) => TryMatch(s.(selectedFrame := Some(id)))
    case EnterName(input) => SubmitName(s, input)
    case Restart => Initial()
  }

  /** The announcement one gesture leads to, if any. */
  function StepFeedback(s: Snapshot, a: Action): Option<Feedback> {
    match a
    case ClickTitle(id) => TryMatchFeedback(s.(selectedMovie := Some(id)))
    case ClickFrame(id) => TryMatchFeedback(s.(selectedFrame := Some(id)))
    case DropOnFrame(id) => TryMatchFeedback(s.(selectedFrame := Some(id)))
    case _ => None
  }

  /** A sequence of gestures each of which the page offers when it happens. */
  predicate AllowedRun(s: Snapshot, actions: seq<Action>)
    decreases |actions|
  {
    actions == [] || (Allowed(s, actions[0]) && AllowedRun(Step(s, actions[0]), actions[1..]))
  }

  function Run(s: Snapshot, actions: seq<Action>): Snapshot
    decreases |actions|
  {
    if actions == [] then s else Run(Step(s, actions[0]), actions[1..])
  }

  /** The announcements a sequence of gestures leads to, in order. */
  function Announcements(s: Snapshot, actions: seq<Action>): seq<Feedback>
    decreases |actions|
  {
    if actions == [] then []
    else
      var rest := Announcements(Step(s, actions[0]), actions[1..]);
      match StepFeedback(s, actions[0])
      case Some(f) => [f] + rest
      case None => rest
  }
}
