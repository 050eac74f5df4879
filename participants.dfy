/** The participant list the organizer edits, and the checks that
    generateMatches runs on it and on the group name before drawing. */
module Participants {
  import opened Text

  /** addParticipant: one more, empty, entry at the end. */
  function AddParticipant(ps: seq<string>): (r: seq<string>)
    ensures |r| == |ps| + 1
    ensures r[|ps|] == ""
    ensures forall j :: 0 <= j < |ps| ==> r[j] == ps[j]
  {
    ps + [""]
  }

  /** The entries whose position differs from index, in order: the
      filter((_, i) => i !== index) that removeParticipant applies. An index
      outside the list removes nothing. */
  function WithoutIndex(ps: seq<string>, index: int): (r: seq<string>)
    ensures 0 <= index < |ps| ==> r == ps[..index] + ps[index + 1..]
    ensures !(0 <= index < |ps|) ==> r == ps
    decreases ps
  {
    if ps == [] then []
    else (if index == 0 then [] else [ps[0]]) + WithoutIndex(ps[1..], index - 1)
  }

  /** removeParticipant: deletes entry index, but only while the list has
      more than one entry, so a non-empty list stays non-empty. */
  function RemoveParticipant(ps: seq<string>, index: int): (r: seq<string>)
    ensures |ps| > 1 && 0 <= index < |ps| ==>
      && |r| == |ps| - 1
      && (forall j :: 0 <= j < index ==> r[j] == ps[j])
      && (forall j :: index <= j < |r| ==> r[j] == ps[j + 1])
    ensures !(|ps| > 1 && 0 <= index < |ps|) ==> r == ps
    ensures |ps| >= 1 ==> |r| >= 1
  {
    if |ps| > 1 then WithoutIndex(ps, index) else ps
  }

  /** updateParticipant: same length, value at index, every other entry kept. */
  function UpdateParticipant(ps: seq<string>, index: int, value: string): (r: seq<string>)
    requires 0 <= index < |ps|
    ensures |r| == |ps|
    ensures r[index] == value
    ensures forall j :: 0 <= j < |ps| && j != index ==> r[j] == ps[j]
  {
    ps[index := value]
  }

  /** The list generateMatches works on: participants.filter(p => p.trim() !== '').
      Entries are kept as typed, not trimmed. */
  function ValidParticipants(ps: seq<string>): (r: seq<string>)
    ensures |r| <= |ps|
    ensures forall j :: 0 <= j < |r| ==> !IsBlank(r[j])
  {
    if ps == [] then [] else Kept(ps[0]) + ValidParticipants(ps[1..])
  }

  /** The filter's test on one entry: p.trim() !== ''. */
  function Kept(p: string): (r: seq<string>)
    ensures r == if IsBlank(p) then [] else [p]
  {
    TrimEmptyIffBlank(p);
    if Trim(p) != "" then [p] else []
  }

  /** The filter distributes over concatenation; with ValidParticipantsSingle
      this determines it: order is kept and only blank entries go. */
  lemma {:induction false} ValidParticipantsAppend(a: seq<string>, b: seq<string>)
    ensures ValidParticipants(a + b) == ValidParticipants(a) + ValidParticipants(b)
    decreases |a|
  {
    if a == [] {
      assert a + b == b;
    } else {
      assert (a + b)[0] == a[0] && (a + b)[1..] == a[1..] + b;
      ValidParticipantsAppend(a[1..], b);
    }
  }

  /** A one-entry list keeps its entry exactly when the entry is not blank. */
  lemma ValidParticipantsSingle(x: string)
    ensures ValidParticipants([x]) == if IsBlank(x) then [] else [x]
  {
    assert [x][1..] == [];
  }

  /** Every non-blank entry survives with its multiplicity, every blank one goes. */
  lemma {:induction false} ValidParticipantsCount(ps: seq<string>, x: string)
    ensures multiset(ValidParticipants(ps))[x] == if IsBlank(x) then 0 else multiset(ps)[x]
  {
    if ps != [] {
      assert ps == [ps[0]] + ps[1..];
      ValidParticipantsCount(ps[1..], x);
    }
  }

  /** A list with no blank entry passes through the filter unchanged. */
  lemma {:induction false} ValidParticipantsOfNonBlank(ps: seq<string>)
    requires forall j :: 0 <= j < |ps| ==> !IsBlank(ps[j])
    ensures ValidParticipants(ps) == ps
  {
    if ps != [] {
      ValidParticipantsOfNonBlank(ps[1..]);
    }
  }

  /** Removing the entry that addParticipant just appended gives back the list. */
  lemma RemoveUndoesAdd(ps: seq<string>)
    requires |ps| >= 1
    ensures RemoveParticipant(AddParticipant(ps), |ps|) == ps
  {
    assert AddParticipant(ps)[..|ps|] == ps;
  }

  /** Writing back the old value undoes updateParticipant. */
  lemma UpdateUndoesUpdate(ps: seq<string>, index: int, value: string)
    requires 0 <= index < |ps|
    ensures UpdateParticipant(UpdateParticipant(ps, index, value), index, ps[index]) == ps
  {
  }

  /** The empty entry addParticipant appends is blank, so the list that
      generateMatches would draw from is the same as before. */
  lemma AddKeepsValidParticipants(ps: seq<string>)
    ensures ValidParticipants(AddParticipant(ps)) == ValidParticipants(ps)
  {
    ValidParticipantsAppend(ps, [""]);
    ValidParticipantsSingle("");
  }

  /** The outcome of the two checks at the top of generateMatches. */
  datatype Validation =
    | Accepted(participants: seq<string>, groupName: string)
    | TooFewParticipants
    | BlankGroupName

  /** Fewer than two non-blank participants is reported first; then a blank
      group name; otherwise the valid participants and the trimmed group
      name go on to the draw. */
  function Validate(ps: seq<string>, groupName: string): (r: Validation)
    ensures r.TooFewParticipants? <==> |ValidParticipants(ps)| < 2
    ensures r.BlankGroupName? <==> |ValidParticipants(ps)| >= 2 && IsBlank(groupName)
    ensures r.Accepted? ==>
      && r.participants == ValidParticipants(ps)
      && r.groupName == Trim(groupName)
      && r.groupName != ""
  {
    TrimEmptyIffBlank(groupName);
    var valid := ValidParticipants(ps);
    if |valid| < 2 then TooFewParticipants
    else if Trim(groupName) == "" then BlankGroupName
    else Accepted(valid, Trim(groupName))
  }
}
