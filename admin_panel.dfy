/** The administrator's panel: the add-team form, the rename dialog and the
    score form, each validating its inputs before handing a request to the
    page. The panel's form state is a class whose handlers update it. */
module AdminPanel {
  import opened Wrappers
  import opened TournamentTypes
  import Text
  import Roster
  import TournamentPage

  /** The team being renamed. */
  datatype EditingTeam = EditingTeam(groupId: string, teamId: string, name: string)

  /** The score form's five inputs, as typed. */
  datatype ScoreEntry = ScoreEntry(groupId: string, homeTeamId: string, awayTeamId: string,
                                   homeScore: string, awayScore: string)

  /** The score form with every input empty. */
  const EmptyEntry := ScoreEntry("", "", "", "", "")

  /** A score handed to the page: home id, away id, home goals, away goals, group id. */
  datatype ScoreRequest = ScoreRequest(homeTeamId: string, awayTeamId: string,
                                       homeScore: int, awayScore: int, groupId: string)

  /** Why a form was not submitted. */
  datatype FormError = MissingFields | AlreadyInGroup | EmptyName | SameTeams | NotANumber

  // ---------------------------------------------------------------------------
  // Renaming

  /** The rename dialog's save: a name that is empty after trimming is
      refused; otherwise the trimmed name is saved for the same team. */
  function SavedName(editing: EditingTeam, name: string): (r: Result<EditingTeam, FormError>)
    ensures r.Failure? ==> r.error == EmptyName
    ensures r.Success? ==> r.value == editing.(name := r.value.name)
  {
    if Text.Trim(name) == "" then Failure(EmptyName) else Success(editing.(name := Text.Trim(name)))
  }

  /** The dialog refuses exactly the names made only of white space; a
      saved name is the typed one trimmed, is not empty, and trimming it
      again changes nothing. */
  lemma SavedNameAccepts(editing: EditingTeam, name: string)
    ensures SavedName(editing, name).Failure? <==> Text.IsBlank(name)
    ensures SavedName(editing, name).Success? ==>
              var saved := SavedName(editing, name).value.name;
              saved != "" && saved == Text.Trim(name) && Text.Trim(saved) == saved
  {
    SavedNameRefusesBlank(editing, name);
    SavedNameIsTrimmed(editing, name);
  }

  lemma SavedNameRefusesBlank(editing: EditingTeam, name: string)
    ensures SavedName(editing, name).Failure? <==> Text.IsBlank(name)
  {
    Text.TrimEmptyIffBlank(name);
  }

  lemma SavedNameIsTrimmed(editing: EditingTeam, name: string)
    ensures SavedName(editing, name).Success? ==>
              var saved := SavedName(editing, name).value.name;
              saved != "" && saved == Text.Trim(name) && Text.Trim(saved) == saved
  {
    Text.TrimIdempotent(name);
  }

  // ---------------------------------------------------------------------------
  // Adding

  /** The add-team form: both inputs must be filled (the name after
      trimming) and the chosen group must not hold the name up to case; then
      the group id and the trimmed name are handed on. */
  function AddTeamRequest(groups: seq<Group>, newTeamName: string, selectedGroup: string)
    : (r: Result<(string, string), FormError>)
    ensures r == Failure(MissingFields) <==> Text.IsBlank(newTeamName) || selectedGroup == ""
    ensures r == Failure(AlreadyInGroup) <==>
              !Text.IsBlank(newTeamName) && selectedGroup != ""
              && Roster.InGroupAlready(groups, selectedGroup, Text.Trim(newTeamName))
    ensures r.Failure? ==> r.error == MissingFields || r.error == AlreadyInGroup
    ensures r.Success? ==> r.value == (selectedGroup, Text.Trim(newTeamName)) && r.value.1 != ""
  {
    Text.TrimEmptyIffBlank(newTeamName);
    var name := Text.Trim(newTeamName);
    if name == "" || selectedGroup == "" then Failure(MissingFields)
    else if Roster.InGroupAlready(groups, selectedGroup, name) then Failure(AlreadyInGroup)
    else Success((selectedGroup, name))
  }

  /** The panel's duplicate check looks only inside the chosen group, so it
      refuses nothing the page would accept: a name it finds there is taken
      in the tournament as well. */
  lemma PanelCheckWithinPageCheck(groups: seq<Group>, newTeamName: string, selectedGroup: string)
    requires AddTeamRequest(groups, newTeamName, selectedGroup) == Failure(AlreadyInGroup)
    ensures TournamentPage.NameTaken(groups, Text.Trim(newTeamName), None)
  {
    var g := Roster.FindGroup(groups, selectedGroup).value;
    var i :| 0 <= i < |groups[g].teams| && Text.SameIgnoringCase(groups[g].teams[i].name, Text.Trim(newTeamName));
    assert 0 <= g < |groups| && 0 <= i < |groups[g].teams|;
  }

  // ---------------------------------------------------------------------------
  // Scores

  /** The score form: every input must be filled, the two teams must differ
      and both scores must read as numbers; then the score is handed on. */
  function ScoreRequestOf(entry: ScoreEntry, number: string -> Option<int>): (r: Result<ScoreRequest, FormError>)
    ensures r == Failure(MissingFields) <==>
              entry.groupId == "" || entry.homeTeamId == "" || entry.awayTeamId == ""
              || entry.homeScore == "" || entry.awayScore == ""
    ensures r == Failure(SameTeams) <==>
              entry.groupId != "" && entry.homeTeamId != "" && entry.awayTeamId != ""
              && entry.homeScore != "" && entry.awayScore != ""
              && entry.homeTeamId == entry.awayTeamId
    ensures r.Success? <==>
              entry.groupId != "" && entry.homeTeamId != "" && entry.awayTeamId != ""
              && entry.homeScore != "" && entry.awayScore != ""
              && entry.homeTeamId != entry.awayTeamId
              && number(entry.homeScore).Some? && number(entry.awayScore).Some?
    ensures r.Failure? ==> r.error in {MissingFields, SameTeams, NotANumber}
    ensures r.Success? ==> r.value == ScoreRequest(entry.homeTeamId, entry.awayTeamId,
                                                   number(entry.homeScore).value, number(entry.awayScore).value,
                                                   entry.groupId)
  {
    if entry.groupId == "" || entry.homeTeamId == "" || entry.awayTeamId == ""
       || entry.homeScore == "" || entry.awayScore == "" then Failure(MissingFields)
    else if entry.homeTeamId == entry.awayTeamId then Failure(SameTeams)
    else match (number(entry.homeScore), number(entry.awayScore))
      case (Some(h), Some(a)) => Success(ScoreRequest(entry.homeTeamId, entry.awayTeamId, h, a, entry.groupId))
      case _ => Failure(NotANumber)
  }

  /** Choosing a group for the score form clears both team choices, so the
      form cannot be submitted until two teams are picked again. */
  lemma GroupChangeNeedsTeams(entry: ScoreEntry, value: string, number: string -> Option<int>)
    ensures ScoreRequestOf(entry.(groupId := value, homeTeamId := "", awayTeamId := ""), number)
            == Failure(MissingFields)
  {
  }

  /** The emptied form is not submittable. */
  lemma EmptyEntryRefused(number: string -> Option<int>)
    ensures ScoreRequestOf(EmptyEntry, number) == Failure(MissingFields)
  {
  }

  // ---------------------------------------------------------------------------
  // The panel's state

  class Panel {
    var newTeamName: string
    var selectedGroup: string
    var editingTeam: Option<EditingTeam>
    /** The rename dialog's own name input, while it is open. */
    var dialogName: string
    var scoreEntry: ScoreEntry

    constructor ()
      ensures newTeamName == "" && selectedGroup == "" && editingTeam == None
      ensures scoreEntry == EmptyEntry
    {
      newTeamName := "";
      selectedGroup := "";
      editingTeam := None;
      dialogName := "";
      scoreEntry := EmptyEntry;
    }

    /** `handleAddTeam`: a valid request is handed to `onAddTeam`, and the
        two inputs are cleared only when that reports success; otherwise
        nothing changes. */
    method HandleAddTeam(groups: seq<Group>, onAddTeam: (string, string) -> bool)
      returns (request: Result<(string, string), FormError>)
      modifies this
      ensures request == AddTeamRequest(groups, old(newTeamName), old(selectedGroup))
      ensures request.Success? && onAddTeam(request.value.0, request.value.1) ==>
                newTeamName == "" && selectedGroup == ""
      ensures !(request.Success? && onAddTeam(request.value.0, request.value.1)) ==>
                newTeamName == old(newTeamName) && selectedGroup == old(selectedGroup)
      ensures editingTeam == old(editingTeam) && dialogName == old(dialogName) && scoreEntry == old(scoreEntry)
    {
      request := AddTeamRequest(groups, newTeamName, selectedGroup);
      if request.Success? {
        var success := onAddTeam(request.value.0, request.value.1);
        if success {
          newTeamName := "";
          selectedGroup := "";
        }
      }
    }

    /** The edit button: the dialog opens on the team, showing its name. */
    method StartEdit(groupId: string, teamId: string, name: string)
      modifies this
      ensures editingTeam == Some(EditingTeam(groupId, teamId, name)) && dialogName == name
      ensures newTeamName == old(newTeamName) && selectedGroup == old(selectedGroup) && scoreEntry == old(scoreEntry)
    {
      editingTeam := Some(EditingTeam(groupId, teamId, name));
      dialogName := name;
    }

    /** The dialog's save: a blank name keeps the dialog open and hands
        nothing on; otherwise the rename is handed on and the dialog closes. */
    method SaveEdit() returns (request: Result<EditingTeam, FormError>)
      requires editingTeam.Some?
      modifies this
      ensures request == SavedName(old(editingTeam).value, old(dialogName))
      ensures request.Failure? ==> editingTeam == old(editingTeam)
      ensures request.Success? ==> editingTeam == None
      ensures newTeamName == old(newTeamName) && selectedGroup == old(selectedGroup)
      ensures dialogName == old(dialogName) && scoreEntry == old(scoreEntry)
    {
      request := SavedName(editingTeam.value, dialogName);
      if request.Success? {
        editingTeam := None;
      }
    }

    /** Choosing the score form's group clears its team choices. */
    method SelectScoreGroup(value: string)
      modifies this
      ensures scoreEntry == old(scoreEntry).(groupId := value, homeTeamId := "", awayTeamId := "")
      ensures newTeamName == old(newTeamName) && selectedGroup == old(selectedGroup)
      ensures editingTeam == old(editingTeam) && dialogName == old(dialogName)
    {
      scoreEntry := scoreEntry.(groupId := value, homeTeamId := "", awayTeamId := "");
    }

    /** `handleSubmitScore`: a valid score is handed on and the form emptied;
        otherwise nothing changes. */
    method HandleSubmitScore(number: string -> Option<int>) returns (request: Result<ScoreRequest, FormError>)
      modifies this
      ensures request == ScoreRequestOf(old(scoreEntry), number)
      ensures request.Success? ==> scoreEntry == EmptyEntry
      ensures request.Failure? ==> scoreEntry == old(scoreEntry)
      ensures newTeamName == old(newTeamName) && selectedGroup == old(selectedGroup)
      ensures editingTeam == old(editingTeam) && dialogName == old(dialogName)
    {
      request := ScoreRequestOf(scoreEntry, number);
      if request.Success? {
        scoreEntry := EmptyEntry;
      }
    }
  }
}
