/** The localStorage layout generateMatches writes and the two lookups that
    read it back: one "match:<code>" record per giver and one
    "group:<groupId>" summary that lists givers and codes but no receivers. */
module Store {
  import opened Text

  datatype Option<T> = None | Some(value: T)

  /** The object stored under "match:<code>". */
  datatype MatchRecord = MatchRecord(giver: string, receiver: string, groupName: string, groupId: string)

  /** One element of a summary's matches list; it has no receiver. */
  datatype CodeEntry = CodeEntry(giver: string, code: string)

  /** The object stored under "group:<groupId>"; created is the timestamp,
      kept opaque. */
  datatype GroupSummary = GroupSummary(name: string, matches: seq<CodeEntry>, created: string)

  /** A stored value, after JSON.parse. */
  datatype Record = MatchData(matchRecord: MatchRecord) | GroupData(summary: GroupSummary)

  type Storage = map<string, Record>

  function MatchKey(code: string): string {
    "match:" + code
  }

  function GroupKey(groupId: string): string {
    "group:" + groupId
  }

  /** Different codes give different match keys. */
  lemma MatchKeyInjective(a: string, b: string)
    requires MatchKey(a) == MatchKey(b)
    ensures a == b
  {
    assert a == MatchKey(a)[6..];
    assert b == MatchKey(b)[6..];
  }

  /** A group key is never a match key, so the summary write cannot clobber
      a match record, whatever the code and the group id. */
  lemma GroupKeyIsNotMatchKey(groupId: string, code: string)
    ensures GroupKey(groupId) != MatchKey(code)
  {
    assert GroupKey(groupId)[0] == 'g';
    assert MatchKey(code)[0] == 'm';
  }

  /** Everything one successful generateMatches writes: the givers (the
      valid participants), the accepted receivers, one code per giver, the
      trimmed group name, the group id and the creation timestamp. */
  datatype Batch = Batch(
    givers: seq<string>, receivers: seq<string>, codes: seq<string>,
    groupName: string, groupId: string, created: string)
  {
    predicate WellFormed() {
      |receivers| == |givers| && |codes| == |givers|
    }

    /** The record written for giver i. */
    function RecordAt(i: nat): MatchRecord
      requires WellFormed() && i < |givers|
    {
      MatchRecord(givers[i], receivers[i], groupName, groupId)
    }

    /** The summary's matches list: (giver, code) in giver order. */
    function Entries(): (r: seq<CodeEntry>)
      requires WellFormed()
      ensures |r| == |givers|
      ensures forall i :: 0 <= i < |r| ==> r[i].giver == givers[i] && r[i].code == codes[i]
    {
      seq(|givers|, i requires 0 <= i < |givers| => CodeEntry(givers[i], codes[i]))
    }

    function Summary(): GroupSummary
      requires WellFormed()
    {
      GroupSummary(groupName, Entries(), created)
    }
  }

  /** The store after the first n iterations of the for loop, each of which
      sets "match:" + codes[i]; a repeated code is overwritten by the later
      giver. */
  function Writes(st: Storage, b: Batch, n: nat): Storage
    requires b.WellFormed() && n <= |b.givers|
  {
    if n == 0 then st
    else Writes(st, b, n - 1)[MatchKey(b.codes[n - 1]) := MatchData(b.RecordAt(n - 1))]
  }

  /** The store after the whole batch: every match record, then the summary. */
  function AfterCreate(st: Storage, b: Batch): Storage
    requires b.WellFormed()
  {
    Writes(st, b, |b.givers|)[GroupKey(b.groupId) := GroupData(b.Summary())]
  }

  /** The keys the first n match writes add. */
  function MatchKeys(b: Batch, n: nat): (r: set<string>)
    requires b.WellFormed() && n <= |b.givers|
    ensures forall i :: 0 <= i < n ==> MatchKey(b.codes[i]) in r
    ensures forall k :: k in r ==> exists i :: 0 <= i < n && k == MatchKey(b.codes[i])
  {
    set i | 0 <= i < n :: MatchKey(b.codes[i])
  }

  /** The match writes add exactly their own keys. */
  lemma {:induction false} WritesKeys(st: Storage, b: Batch, n: nat)
    requires b.WellFormed() && n <= |b.givers|
    ensures Writes(st, b, n).Keys == st.Keys + MatchKeys(b, n)
  {
    if n > 0 {
      WritesKeys(st, b, n - 1);
      assert MatchKeys(b, n) == MatchKeys(b, n - 1) + {MatchKey(b.codes[n - 1])};
    }
  }

  /** A key no match write touches keeps its presence and its value. */
  lemma {:induction false} WritesElsewhere(st: Storage, b: Batch, n: nat, key: string)
    requires b.WellFormed() && n <= |b.givers|
    requires forall i :: 0 <= i < n ==> key != MatchKey(b.codes[i])
    ensures key in Writes(st, b, n) <==> key in st
    ensures key in st ==> Writes(st, b, n)[key] == st[key]
  {
    if n > 0 {
      WritesElsewhere(st, b, n - 1, key);
    }
  }

  /** After the first n writes, the key of code i holds giver i's record
      unless a later giver among them drew the same code. */
  lemma {:induction false} WritesAt(st: Storage, b: Batch, n: nat, i: nat)
    requires b.WellFormed() && i < n <= |b.givers|
    requires forall j :: i < j < n ==> b.codes[j] != b.codes[i]
    ensures MatchKey(b.codes[i]) in Writes(st, b, n)
    ensures Writes(st, b, n)[MatchKey(b.codes[i])] == MatchData(b.RecordAt(i))
  {
    if i < n - 1 {
      WritesAt(st, b, n - 1, i);
      if MatchKey(b.codes[n - 1]) == MatchKey(b.codes[i]) {
        MatchKeyInjective(b.codes[n - 1], b.codes[i]);
      }
    }
  }

  predicate DistinctCodes(codes: seq<string>) {
    forall i, j :: 0 <= i < j < |codes| ==> codes[i] != codes[j]
  }

  /** The layout after a successful generateMatches with distinct codes: the
      key of each code holds that giver's match record, the group key holds
      the summary, and every other key is as it was. */
  lemma AfterCreateContents(st: Storage, b: Batch)
    requires b.WellFormed() && DistinctCodes(b.codes)
    ensures forall i :: 0 <= i < |b.givers| ==>
      MatchKey(b.codes[i]) in AfterCreate(st, b) &&
      AfterCreate(st, b)[MatchKey(b.codes[i])] == MatchData(b.RecordAt(i))
    ensures GroupKey(b.groupId) in AfterCreate(st, b)
    ensures AfterCreate(st, b)[GroupKey(b.groupId)] == GroupData(b.Summary())
    ensures AfterCreate(st, b).Keys == st.Keys + MatchKeys(b, |b.givers|) + {GroupKey(b.groupId)}
    ensures forall key :: key !in MatchKeys(b, |b.givers|) && key != GroupKey(b.groupId) ==>
      (key in AfterCreate(st, b) <==> key in st) &&
      (key in st ==> AfterCreate(st, b)[key] == st[key])
  {
    var n := |b.givers|;
    forall i | 0 <= i < n
      ensures MatchKey(b.codes[i]) in AfterCreate(st, b)
      ensures AfterCreate(st, b)[MatchKey(b.codes[i])] == MatchData(b.RecordAt(i))
    {
      WritesAt(st, b, n, i);
      GroupKeyIsNotMatchKey(b.groupId, b.codes[i]);
    }
    WritesKeys(st, b, n);
    forall key | key !in MatchKeys(b, n) && key != GroupKey(b.groupId)
      ensures key in AfterCreate(st, b) <==> key in st
      ensures key in st ==> AfterCreate(st, b)[key] == st[key]
    {
      WritesElsewhere(st, b, n, key);
    }
  }

  /** When two givers draw the same code, the key holds the later giver's
      record and the earlier giver's record is lost: nothing in generateMatches
      checks codes for uniqueness. */
  lemma CollidingCodeKeepsLaterRecord(st: Storage, b: Batch, i: nat, j: nat)
    requires b.WellFormed() && i < j < |b.givers| && b.codes[i] == b.codes[j]
    requires forall l :: j < l < |b.givers| ==> b.codes[l] != b.codes[j]
    ensures MatchKey(b.codes[i]) in AfterCreate(st, b)
    ensures AfterCreate(st, b)[MatchKey(b.codes[i])] == MatchData(b.RecordAt(j))
  {
    WritesAt(st, b, |b.givers|, j);
    GroupKeyIsNotMatchKey(b.groupId, b.codes[j]);
  }

  /** What viewMyMatch reports. */
  datatype LookupResult = Found(record: Record) | MissingCode | InvalidCode

  /** viewMyMatch: a blank code is refused before any lookup; otherwise the
      value under "match:" + the trimmed code, or InvalidCode when the key is
      absent. */
  function LookupCode(st: Storage, code: string): (r: LookupResult)
    ensures r == MissingCode <==> IsBlank(code)
    ensures r.Found? <==> !IsBlank(code) && MatchKey(Trim(code)) in st
    ensures r.Found? ==> r.record == st[MatchKey(Trim(code))]
  {
    TrimEmptyIffBlank(code);
    if Trim(code) == "" then MissingCode
    else if MatchKey(Trim(code)) in st then Found(st[MatchKey(Trim(code))])
    else InvalidCode
  }

  /** loadGroup: None for an empty group id (no lookup) or an absent key,
      otherwise the value under "group:" + groupId. The id is not trimmed. */
  function LookupGroup(st: Storage, groupId: string): (r: Option<Record>)
    ensures r.Some? <==> groupId != "" && GroupKey(groupId) in st
    ensures r.Some? ==> r.value == st[GroupKey(groupId)]
  {
    if groupId == "" then None
    else if GroupKey(groupId) in st then Some(st[GroupKey(groupId)])
    else None
  }

  /** The shape generateRandomId produces: Math.random().toString(36) with
      its leading "0." cut off and at most eight base-36 digits kept. */
  predicate IsRandomId(s: string) {
    |s| <= 8 && forall i :: 0 <= i < |s| ==> ('0' <= s[i] <= '9' || 'a' <= s[i] <= 'z')
  }

  /** A non-empty id is its own trim and not blank. */
  lemma RandomIdIsTrimmed(s: string)
    requires IsRandomId(s) && s != ""
    ensures Trim(s) == s && !IsBlank(s)
  {
    AlphanumericIsNotWhitespace(s[0]);
    AlphanumericIsNotWhitespace(s[|s| - 1]);
    TrimOfTrimmed(s);
  }

  /** Every whitespace code point lies below '0' or above 'z'. */
  lemma AlphanumericIsNotWhitespace(c: char)
    requires '0' <= c <= 'z'
    ensures !IsWhitespace(c)
  {
  }

  /** Round trip: after creation with distinct non-empty codes, looking up
      the code of giver i reveals giver i's match, with the matching name in
      the summary next to that code. */
  lemma CreateThenLookupCode(st: Storage, b: Batch, i: nat)
    requires b.WellFormed() && DistinctCodes(b.codes) && i < |b.givers|
    requires IsRandomId(b.codes[i]) && b.codes[i] != ""
    ensures LookupCode(AfterCreate(st, b), b.codes[i]) == Found(MatchData(b.RecordAt(i)))
    ensures b.Summary().matches[i].code == b.codes[i]
    ensures b.Summary().matches[i].giver == b.RecordAt(i).giver
  {
    RandomIdIsTrimmed(b.codes[i]);
    AfterCreateContents(st, b);
  }

  /** Round trip: after creation, loadGroup with the new, non-empty group id
      returns the summary, which lists every giver and code and no receiver. */
  lemma CreateThenLookupGroup(st: Storage, b: Batch)
    requires b.WellFormed() && b.groupId != ""
    ensures LookupGroup(AfterCreate(st, b), b.groupId) == Some(GroupData(b.Summary()))
    ensures |b.Summary().matches| == |b.givers|
  {
  }

  /** A code that was not issued by this creation and did not resolve
      before it still does not resolve. */
  lemma UnissuedCodeNotFound(st: Storage, b: Batch, code: string)
    requires b.WellFormed() && !IsBlank(code)
    requires MatchKey(Trim(code)) !in st
    requires forall i :: 0 <= i < |b.codes| ==> b.codes[i] != Trim(code)
    ensures LookupCode(AfterCreate(st, b), code) == InvalidCode
  {
    var key := MatchKey(Trim(code));
    forall i | 0 <= i < |b.givers| ensures key != MatchKey(b.codes[i]) {
      if key == MatchKey(b.codes[i]) {
        MatchKeyInjective(Trim(code), b.codes[i]);
      }
    }
    WritesElsewhere(st, b, |b.givers|, key);
    GroupKeyIsNotMatchKey(b.groupId, Trim(code));
  }
}
