/** The state and event handlers of the SecretSantaApp component. Its
    useState fields become fields of a class, and localStorage becomes the
    storage field. The random parts are parameters of GenerateMatches:
    the shuffles, the group id, one code per valid participant, and the
    timestamp. */
module App {
  import opened Text
  import Participants
  import Matcher
  import opened Store

  /** How generateMatches ends. The first two are its alerts. NoDrawAccepted
      means no supplied draw was accepted, so generateMatches would still be
      inside its while loop. */
  datatype CreateOutcome =
    | Created(receivers: seq<string>)
    | TooFewParticipants
    | BlankGroupName
    | NoDrawAccepted

  class SecretSanta {
    var participants: seq<string>
    var groupName: string
    var isCreated: bool
    var groupId: string
    var viewCode: string
    var myMatch: Option<Record>
    var storage: Storage

    /** The participant list is never empty: it starts as [""], removal
        keeps the last entry, and the other edits do not shorten it. */
    ghost predicate Valid()
      reads this
    {
      |participants| >= 1
    }

    /** The initial component state over whatever localStorage already holds. */
    constructor (storage0: Storage)
      ensures Valid()
      ensures participants == [""] && groupName == "" && !isCreated && groupId == ""
      ensures viewCode == "" && myMatch == None && storage == storage0
    {
      participants := [""];
      groupName := "";
      isCreated := false;
      groupId := "";
      viewCode := "";
      myMatch := None;
      storage := storage0;
    }

    method AddParticipant()
      requires Valid()
      modifies this`participants
      ensures Valid()
      ensures participants == Participants.AddParticipant(old(participants))
    {
      participants := participants + [""];
    }

    method RemoveParticipant(index: int)
      requires Valid()
      modifies this`participants
      ensures Valid()
      ensures participants == Participants.RemoveParticipant(old(participants), index)
    {
      if |participants| > 1 {
        participants := Participants.WithoutIndex(participants, index);
      }
    }

    method UpdateParticipant(index: int, value: string)
      requires Valid() && 0 <= index < |participants|
      modifies this`participants
      ensures Valid()
      ensures participants == Participants.UpdateParticipant(old(participants), index, value)
    {
      var newParticipants := participants;
      newParticipants := newParticipants[index := value];
      participants := newParticipants;
    }

    /** The group-name input's onChange. */
    method SetGroupName(name: string)
      requires Valid()
      modifies this`groupName
      ensures Valid()
      ensures groupName == name
    {
      groupName := name;
    }

    /** The code input's onChange. */
    method SetViewCode(code: string)
      requires Valid()
      modifies this`viewCode
      ensures Valid()
      ensures viewCode == code
    {
      viewCode := code;
    }

    /** generateMatches. Validation failures change nothing. Otherwise the
        first accepted draw becomes the receivers. The store then gets one
        match record per valid participant and the group summary, and nothing
        else in it changes. Finally groupId and isCreated are set. */
    method GenerateMatches(draws: seq<seq<string>>, newGroupId: string, codes: seq<string>, created: string)
      returns (outcome: CreateOutcome)
      requires Valid()
      requires forall k :: 0 <= k < |draws| ==>
        multiset(draws[k]) == multiset(Participants.ValidParticipants(participants))
      requires |codes| == |Participants.ValidParticipants(participants)|
      modifies this`storage, this`groupId, this`isCreated
      ensures Valid()
      ensures !outcome.Created? ==>
        storage == old(storage) && groupId == old(groupId) && isCreated == old(isCreated)
      ensures outcome.TooFewParticipants? <==> |Participants.ValidParticipants(old(participants))| < 2
      ensures outcome.BlankGroupName? <==>
        |Participants.ValidParticipants(old(participants))| >= 2 && IsBlank(old(groupName))
      ensures outcome.NoDrawAccepted? ==> forall k :: 0 <= k < |draws| ==>
        !Matcher.NoFixedPoint(Participants.ValidParticipants(old(participants)), draws[k])
      ensures outcome.Created? ==>
        && (exists k: nat :: Matcher.AcceptedAt(Participants.ValidParticipants(old(participants)), draws, k)
                              && draws[k] == outcome.receivers)
        && Matcher.IsDerangementOf(outcome.receivers, Participants.ValidParticipants(old(participants)))
        && storage == AfterCreate(old(storage),
             Batch(Participants.ValidParticipants(old(participants)), outcome.receivers, codes, Trim(old(groupName)), newGroupId, created))
        && groupId == newGroupId && isCreated
    {
      var v := Participants.Validate(participants, groupName);
      if v.TooFewParticipants? {
        return TooFewParticipants;
      }
      if v.BlankGroupName? {
        return BlankGroupName;
      }
      var givers := v.participants;
      var accepted, k, receivers := Matcher.DrawReceivers(givers, draws);
      if !accepted {
        return NoDrawAccepted;
      }
      StoreBatch(givers, receivers, codes, v.groupName, newGroupId, created);
      groupId := newGroupId;
      isCreated := true;
      outcome := Created(receivers);
    }

    /** The writes of generateMatches once the receivers are drawn: the for
        loop puts one match record per giver under "match:" + its code and
        collects (giver, code), then the summary goes under
        "group:" + newGroupId. */
    method StoreBatch(givers: seq<string>, receivers: seq<string>, codes: seq<string>,
                      name: string, newGroupId: string, created: string)
      requires |receivers| == |givers| && |codes| == |givers|
      modifies this`storage
      ensures storage == AfterCreate(old(storage), Batch(givers, receivers, codes, name, newGroupId, created))
    {
      ghost var b := Batch(givers, receivers, codes, name, newGroupId, created);
      var matches: seq<CodeEntry> := [];
      for i := 0 to |givers|
        invariant storage == Writes(old(storage), b, i)
        invariant matches == b.Entries()[..i]
      {
        var code := codes[i];
        storage := storage[MatchKey(code) := MatchData(MatchRecord(givers[i], receivers[i], name, newGroupId))];
        matches := matches + [CodeEntry(givers[i], code)];
      }
      assert matches == b.Entries();
      storage := storage[GroupKey(newGroupId) := GroupData(GroupSummary(name, matches, created))];
    }

    /** viewMyMatch: a blank code changes nothing. A code that resolves
        shows its record. Any other code leaves myMatch as it was. */
    method ViewMyMatch() returns (outcome: LookupResult)
      requires Valid()
      modifies this`myMatch
      ensures Valid()
      ensures outcome == LookupCode(storage, viewCode)
      ensures myMatch == if outcome.Found? then Some(outcome.record) else old(myMatch)
    {
      outcome := LookupCode(storage, viewCode);
      if outcome.Found? {
        myMatch := Some(outcome.record);
      }
    }

    /** The back button on the reveal screen: setMyMatch(null). */
    method DismissMatch()
      requires Valid()
      modifies this`myMatch
      ensures Valid()
      ensures myMatch == None
    {
      myMatch := None;
    }

    /** loadGroup: the summary under the current group id. */
    function LoadGroup(): (r: Option<Record>)
      reads this
      ensures r.Some? <==> groupId != "" && GroupKey(groupId) in storage
      ensures r.Some? ==> r.value == storage[GroupKey(groupId)]
    {
      LookupGroup(storage, groupId)
    }

    /** reset: back to the initial component state. localStorage keeps
        everything written so far. */
    method Reset()
      modifies this`isCreated, this`groupId, this`participants, this`groupName, this`viewCode, this`myMatch
      ensures Valid()
      ensures participants == [""] && groupName == "" && !isCreated && groupId == ""
      ensures viewCode == "" && myMatch == None
    {
      isCreated := false;
      groupId := "";
      participants := [""];
      groupName := "";
      viewCode := "";
      myMatch := None;
    }
  }

  /** Validation counts entries, not distinct names: two copies of one name
      pass it, and yet no rearrangement of them is acceptable, so the draw
      loop of generateMatches never stops. */
  lemma DuplicatePairPassesButNeverDraws(x: string, name: string, receivers: seq<string>)
    requires !IsBlank(x) && !IsBlank(name)
    requires multiset(receivers) == multiset([x, x])
    ensures Participants.Validate([x, x], name).Accepted?
    ensures Participants.Validate([x, x], name).participants == [x, x]
    ensures !Matcher.NoFixedPoint([x, x], receivers)
  {
    Participants.ValidParticipantsOfNonBlank([x, x]);
    Matcher.NoDerangementWithMajority([x, x], receivers, x);
  }
}
