/** The pending-matches card. When it mounts, it counts the disliked items the
    signed-in user shares with each candidate, turns the count into a tier,
    builds one ordered pair record per candidate, merges the pair statuses the
    server returns into the candidates, and keeps the pairs still pending for
    the user. It shows the first of those still pending, and a click on
    Accept or Decline patches that pair's `newUserStatus`. The replies of the
    server are parameters here. */
module PendingMatches {
  import opened Common

  /** A per-user or aggregate status of a pair. */
  datatype Status = Pending | Accepted | Rejected

  /** Which status column of a pair belongs to the signed-in user:
      `user1Status` or `user2Status`. */
  datatype Side = User1 | User2

  /** A user id with its demo group id (None for a real user). */
  datatype Person = Person(userId: int, demoId: Option<int>)

  /** One shared disliked item of a pair, as listed in `matchSelections`. */
  datatype SelectionRow = SelectionRow(userId1: int, userId2: int, selectionName: string)

  /** One entry of `allMatchTypes`, the pair records sent to the server. */
  datatype PairRecord = PairRecord(userId1: int, demoId1: Option<int>, userId2: int, demoId2: Option<int>, matchType: Tier)

  /** One pair as returned by the post-matches call. */
  datatype StatusRow = StatusRow(
    userId1: int, userId2: int,
    user1Status: Status, user2Status: Status, matchStatus: Status,
    matchType: string, matchSelections: seq<SelectionRow>)

  /** The pair fields a candidate receives when a status row is merged into it. */
  datatype Link = Link(
    userId1: int, userId2: int,
    user1Status: Status, user2Status: Status, matchStatus: Status,
    matchSelections: seq<SelectionRow>, newUserStatus: Status)

  /** One potential match, with the fields the card computes with: `matchType`
      and `link` are None until they are set. */
  datatype Candidate = Candidate(userId: int, demoId: Option<int>, matchType: Option<string>, link: Option<Link>)

  /** The body of a status-update request. */
  datatype StatusUpdate = StatusUpdate(userId1: int, userId2: int, statusToUpdate: Side, status: Status)

  // ---------------------------------------------------------------------------
  // Pair key and side

  /** The request a click on Accept or Decline sends: the pair with the
      smaller id first, and the status column of the signed-in user. */
  function StatusUpdateFor(currentUserId: int, otherUserId: int, status: Status): (r: StatusUpdate)
    ensures currentUserId != otherUserId ==> r.userId1 < r.userId2
    ensures multiset{r.userId1, r.userId2} == multiset{currentUserId, otherUserId}
    ensures r.statusToUpdate == User1 <==> currentUserId < otherUserId
    ensures r.statusToUpdate == User1 ==> r.userId1 == currentUserId
    ensures r.statusToUpdate == User2 ==> r.userId2 == currentUserId
    ensures r.status == status
  {
    if currentUserId < otherUserId then StatusUpdate(currentUserId, otherUserId, User1, status)
    else StatusUpdate(otherUserId, currentUserId, User2, status)
  }

  /** Whichever of two different users clicks, the request names the same
      pair, and each names its own column. */
  lemma StatusUpdateSymmetric(a: int, b: int, sa: Status, sb: Status)
    requires a != b
    ensures StatusUpdateFor(a, b, sa).userId1 == StatusUpdateFor(b, a, sb).userId1
    ensures StatusUpdateFor(a, b, sa).userId2 == StatusUpdateFor(b, a, sb).userId2
    ensures StatusUpdateFor(a, b, sa).statusToUpdate != StatusUpdateFor(b, a, sb).statusToUpdate
  {
  }

  // ---------------------------------------------------------------------------
  // Tier per candidate

  /** The tier of a shared-dislike count. */
  function TierOf(count: nat): (t: Tier)
    ensures t == NoLongerAMatch <==> count == 0
    ensures t == Unset <==> count > 10
    ensures t == Perfect <==> count == 10
  {
    if count == 0 then NoLongerAMatch
    else if count <= 4 then Good
    else if count <= 9 then Great
    else if count == 10 then Perfect
    else Unset
  }

  /** Over the counts 0..10 a larger count never gives a weaker tier. */
  lemma TierMonotone(a: nat, b: nat)
    requires a <= b <= 10
    ensures TierOf(a).Rank() <= TierOf(b).Rank()
  {
  }

  /** The bands of the tiers. */
  lemma TierBands(count: nat)
    ensures 1 <= count <= 4 <==> TierOf(count) == Good
    ensures 5 <= count <= 9 <==> TierOf(count) == Great
  {
  }

  /** The user on the other side of a shared-dislike row. */
  function OtherSide(row: SelectionRow, userId: int): int
  {
    if row.userId1 == userId then row.userId2 else row.userId1
  }

  /** The number of rows whose other side is `candidateId`. */
  function SharedCount(rows: seq<SelectionRow>, userId: int, candidateId: int): (n: nat)
    ensures n <= |rows|
  {
    if rows == [] then 0
    else
      var n := |rows| - 1;
      SharedCount(rows[..n], userId, candidateId) + (if OtherSide(rows[n], userId) == candidateId then 1 else 0)
  }

  /** `otherUsers`: the other side of every row, in row order. */
  method CollectOtherUsers(matchSelections: seq<SelectionRow>, userId: int) returns (otherUsers: seq<int>)
    ensures |otherUsers| == |matchSelections|
    ensures forall i :: 0 <= i < |matchSelections| ==> otherUsers[i] == OtherSide(matchSelections[i], userId)
  {
    otherUsers := [];
    var i := 0;
    while i < |matchSelections|
      invariant 0 <= i <= |matchSelections|
      invariant |otherUsers| == i
      invariant forall k :: 0 <= k < i ==> otherUsers[k] == OtherSide(matchSelections[k], userId)
    {
      var matchSelection := matchSelections[i];
      var otherUser;
      if matchSelection.userId1 == userId {
        otherUser := matchSelection.userId2;
      } else {
        otherUser := matchSelection.userId1;
      }
      otherUsers := otherUsers + [otherUser];
      i := i + 1;
    }
  }

  /** The counting loop: how many times `candidateId` occurs in `otherUsers`. */
  method CountOccurrences(otherUsers: seq<int>, candidateId: int) returns (count: nat)
    ensures count == multiset(otherUsers)[candidateId]
  {
    count := 0;
    var i := 0;
    while i < |otherUsers|
      invariant 0 <= i <= |otherUsers|
      invariant count == multiset(otherUsers[..i])[candidateId]
    {
      assert otherUsers[..i + 1] == otherUsers[..i] + [otherUsers[i]];
      if candidateId == otherUsers[i] {
        count := count + 1;
      }
      i := i + 1;
    }
    assert otherUsers[..|otherUsers|] == otherUsers;
  }

  /** Counting a candidate in `otherUsers` counts the rows it shares with the
      signed-in user. */
  lemma {:induction false} OccurrencesAreShared(rows: seq<SelectionRow>, userId: int, otherUsers: seq<int>, candidateId: int)
    requires |otherUsers| == |rows|
    requires forall i :: 0 <= i < |rows| ==> otherUsers[i] == OtherSide(rows[i], userId)
    ensures multiset(otherUsers)[candidateId] == SharedCount(rows, userId, candidateId)
  {
    if rows != [] {
      var n := |rows| - 1;
      OccurrencesAreShared(rows[..n], userId, otherUsers[..n], candidateId);
      assert otherUsers == otherUsers[..n] + [otherUsers[n]];
    }
  }

  // ---------------------------------------------------------------------------
  // Pair records

  /** The pair record of the signed-in user and one candidate: the smaller id
      first, each demo id next to its own user id. */
  function PairRecordFor(user: Person, other: Person, matchType: Tier): (r: PairRecord)
    ensures r.userId1 <= r.userId2
    ensures multiset{(r.userId1, r.demoId1), (r.userId2, r.demoId2)} == multiset{(user.userId, user.demoId), (other.userId, other.demoId)}
    ensures r.matchType == matchType
  {
    if user.userId < other.userId then PairRecord(user.userId, user.demoId, other.userId, other.demoId, matchType)
    else PairRecord(other.userId, other.demoId, user.userId, user.demoId, matchType)
  }

  /** The request a click sends names the pair of the record built on mount. */
  lemma StatusUpdateNamesRecord(user: Person, other: Person, status: Status, matchType: Tier)
    requires user.userId != other.userId
    ensures var r, q := StatusUpdateFor(user.userId, other.userId, status), PairRecordFor(user, other, matchType);
      r.userId1 == q.userId1 && r.userId2 == q.userId2
  {
  }

  function PersonOf(c: Candidate): Person
  {
    Person(c.userId, c.demoId)
  }

  /** `allMatchTypes`: one pair record per potential match, in order, with the
      tier of the number of rows the two share. */
  method BuildMatchTypes(user: Person, potentialMatches: seq<Candidate>, matchSelections: seq<SelectionRow>)
    returns (allMatchTypes: seq<PairRecord>)
    ensures |allMatchTypes| == |potentialMatches|
    ensures forall i :: 0 <= i < |potentialMatches| ==>
      allMatchTypes[i] == PairRecordFor(user, PersonOf(potentialMatches[i]),
                                        TierOf(SharedCount(matchSelections, user.userId, potentialMatches[i].userId)))
  {
    var otherUsers := CollectOtherUsers(matchSelections, user.userId);
    allMatchTypes := [];
    var i := 0;
    while i < |potentialMatches|
      invariant 0 <= i <= |potentialMatches|
      invariant |allMatchTypes| == i
      invariant forall k :: 0 <= k < i ==>
        allMatchTypes[k] == PairRecordFor(user, PersonOf(potentialMatches[k]),
                                          TierOf(SharedCount(matchSelections, user.userId, potentialMatches[k].userId)))
    {
      var other := PersonOf(potentialMatches[i]);
      var count := CountOccurrences(otherUsers, other.userId);
      OccurrencesAreShared(matchSelections, user.userId, otherUsers, other.userId);
      var matchType := Unset;
      if count == 0 {
        matchType := NoLongerAMatch;
      } else if count <= 4 {
        matchType := Good;
      } else if count <= 9 {
        matchType := Great;
      } else if count == 10 {
        matchType := Perfect;
      }
      var userId1, demoId1, userId2, demoId2;
      if user.userId < other.userId {
        userId1, demoId1, userId2, demoId2 := user.userId, user.demoId, other.userId, other.demoId;
      } else {
        userId1, demoId1, userId2, demoId2 := other.userId, other.demoId, user.userId, user.demoId;
      }
      allMatchTypes := allMatchTypes + [PairRecord(userId1, demoId1, userId2, demoId2, matchType)];
      i := i + 1;
    }
  }

  /** Every pair record contains the signed-in user, names the candidate of
      its position, and keeps the smaller id first. */
  lemma PairRecordsContainUser(user: Person, potentialMatches: seq<Candidate>, matchSelections: seq<SelectionRow>,
                               allMatchTypes: seq<PairRecord>, i: nat)
    requires |allMatchTypes| == |potentialMatches| && i < |allMatchTypes|
    requires forall k :: 0 <= k < |potentialMatches| ==>
      allMatchTypes[k] == PairRecordFor(user, PersonOf(potentialMatches[k]),
                                        TierOf(SharedCount(matchSelections, user.userId, potentialMatches[k].userId)))
    ensures allMatchTypes[i].userId1 <= allMatchTypes[i].userId2
    ensures {allMatchTypes[i].userId1, allMatchTypes[i].userId2} == {user.userId, potentialMatches[i].userId}
    ensures (allMatchTypes[i].matchType == NoLongerAMatch) <==>
      SharedCount(matchSelections, user.userId, potentialMatches[i].userId) == 0
  {
  }

  // ---------------------------------------------------------------------------
  // The tier copied into the candidates

  /** Whether a pair names `userId` on either side. */
  predicate Names(userId: int, userId1: int, userId2: int)
  {
    userId == userId1 || userId == userId2
  }

  /** The tier of the last pair record naming `userId`. */
  function LastTierFor(allMatchTypes: seq<PairRecord>, userId: int): Option<Tier>
  {
    if allMatchTypes == [] then None
    else
      var last := allMatchTypes[|allMatchTypes| - 1];
      if Names(userId, last.userId1, last.userId2) then Some(last.matchType)
      else LastTierFor(allMatchTypes[..|allMatchTypes| - 1], userId)
  }

  /** A candidate after every pair record naming it has written its tier. */
  function WithTier(c: Candidate, allMatchTypes: seq<PairRecord>): Candidate
  {
    match LastTierFor(allMatchTypes, c.userId)
    case None => c
    case Some(t) => c.(matchType := Some(t.Name()))
  }

  /** The candidates after the tiers of `allMatchTypes` are copied in. */
  function Tiered(cands: seq<Candidate>, allMatchTypes: seq<PairRecord>): seq<Candidate>
  {
    seq(|cands|, i requires 0 <= i < |cands| => WithTier(cands[i], allMatchTypes))
  }

  /** Copies each record's tier into every candidate the record names, in
      place; a later record overwrites an earlier one. */
  method ApplyMatchTypes(potentialMatches: array<Candidate>, allMatchTypes: seq<PairRecord>)
    modifies potentialMatches
    ensures forall i :: 0 <= i < potentialMatches.Length ==>
      potentialMatches[i] == WithTier(old(potentialMatches[i]), allMatchTypes)
  {
    var j := 0;
    while j < |allMatchTypes|
      invariant 0 <= j <= |allMatchTypes|
      invariant forall i :: 0 <= i < potentialMatches.Length ==>
        potentialMatches[i] == WithTier(old(potentialMatches[i]), allMatchTypes[..j])
    {
      var entry := allMatchTypes[j];
      assert allMatchTypes[..j + 1][..j] == allMatchTypes[..j];
      var i := 0;
      while i < potentialMatches.Length
        invariant 0 <= i <= potentialMatches.Length
        invariant forall k :: 0 <= k < i ==>
          potentialMatches[k] == WithTier(old(potentialMatches[k]), allMatchTypes[..j + 1])
        invariant forall k :: i <= k < potentialMatches.Length ==>
          potentialMatches[k] == WithTier(old(potentialMatches[k]), allMatchTypes[..j])
      {
        if potentialMatches[i].userId == entry.userId1 || potentialMatches[i].userId == entry.userId2 {
          potentialMatches[i] := potentialMatches[i].(matchType := Some(entry.matchType.Name()));
        }
        i := i + 1;
      }
      j := j + 1;
    }
    assert allMatchTypes[..|allMatchTypes|] == allMatchTypes;
  }

  /** When the candidates have distinct ids, none of them the signed-in
      user's, each candidate ends up with the tier of its own pair record. */
  lemma {:induction false} LastTierIsOwn(userId: int, ids: seq<int>, allMatchTypes: seq<PairRecord>, i: nat)
    requires |allMatchTypes| == |ids| && i < |ids|
    requires forall k :: 0 <= k < |ids| ==> {allMatchTypes[k].userId1, allMatchTypes[k].userId2} == {userId, ids[k]}
    requires forall k :: 0 <= k < |ids| ==> ids[k] != userId
    requires forall k, l :: 0 <= k < l < |ids| ==> ids[k] != ids[l]
    ensures LastTierFor(allMatchTypes, ids[i]) == Some(allMatchTypes[i].matchType)
  {
    var n := |ids| - 1;
    var last := allMatchTypes[n];
    if i == n {
      assert ids[i] in {last.userId1, last.userId2};
    } else {
      assert ids[i] !in {userId, ids[n]};
      assert !Names(ids[i], last.userId1, last.userId2);
      LastTierIsOwn(userId, ids[..n], allMatchTypes[..n], i);
    }
  }

  // ---------------------------------------------------------------------------
  // Merge and display filter

  /** Whether a status row concerns the candidate `userId`. */
  predicate Concerns(row: StatusRow, userId: int)
  {
    Names(userId, row.userId1, row.userId2)
  }

  /** A candidate after one status row is merged into it: the row's pair,
      statuses, selections and tier, and `newUserStatus` reset to pending. */
  function Merged(c: Candidate, row: StatusRow): (r: Candidate)
    ensures r.userId == c.userId && r.demoId == c.demoId && r.matchType == Some(row.matchType)
    ensures r.link.Some? && IsPending(r)
    ensures r.link.value.userId1 == row.userId1 && r.link.value.userId2 == row.userId2
    ensures r.link.value.user1Status == row.user1Status && r.link.value.user2Status == row.user2Status
    ensures r.link.value.matchStatus == row.matchStatus && r.link.value.matchSelections == row.matchSelections
  {
    c.(matchType := Some(row.matchType),
       link := Some(Link(row.userId1, row.userId2, row.user1Status, row.user2Status, row.matchStatus,
                         row.matchSelections, Pending)))
  }

  /** The last status row concerning `userId`; None exactly when no row
      concerns it. */
  function LastRowFor(rows: seq<StatusRow>, userId: int): (r: Option<StatusRow>)
    ensures r.Some? ==> r.value in rows && Concerns(r.value, userId)
    ensures r.None? <==> forall j :: 0 <= j < |rows| ==> !Concerns(rows[j], userId)
    ensures r.Some? ==> exists j :: 0 <= j < |rows| && rows[j] == r.value && LaterRowsSkip(rows, j, userId)
  {
    if rows == [] then None
    else
      var n := |rows| - 1;
      if Concerns(rows[n], userId) then Some(rows[n])
      else
        assert forall j :: 0 <= j < n ==> rows[..n][j] == rows[j];
        LastRowFor(rows[..n], userId)
  }

  /** No row after position `j` concerns `userId`. */
  predicate LaterRowsSkip(rows: seq<StatusRow>, j: nat, userId: int)
  {
    forall k :: j < k < |rows| ==> !Concerns(rows[k], userId)
  }

  /** A candidate after every status row concerning it has been merged in. */
  function MergedAll(c: Candidate, rows: seq<StatusRow>): (r: Candidate)
    ensures r.userId == c.userId && r.demoId == c.demoId
  {
    match LastRowFor(rows, c.userId)
    case None => c
    case Some(row) => Merged(c, row)
  }

  /** The side of a merged pair that is the signed-in user. */
  function SideOf(userId: int, row: StatusRow): Side
  {
    if userId == row.userId1 then User1 else User2
  }

  /** The signed-in user's own status in a merged pair. */
  function OwnStatus(link: Link, userId: int): Status
  {
    if userId == link.userId1 then link.user1Status else link.user2Status
  }

  /** A merged candidate the card offers: the pair is pending, the signed-in
      user has not answered, and the pair is still a match. */
  predicate Shown(userId: int, c: Candidate)
  {
    c.link.Some? && c.link.value.matchStatus == Pending && OwnStatus(c.link.value, userId) == Pending
    && c.matchType != Some(NoLongerAMatch.Name())
  }

  /** Whether a candidate is kept: some status row concerns it, and merged it is shown. */
  predicate Displayed(userId: int, c: Candidate, rows: seq<StatusRow>)
  {
    LastRowFor(rows, c.userId).Some? && Shown(userId, MergedAll(c, rows))
  }

  /** `matchesToDisplay` when there are at least as many status rows as
      candidates: the merged candidates that are kept, in candidate order. */
  function DisplayList(userId: int, cands: seq<Candidate>, rows: seq<StatusRow>): (r: seq<Candidate>)
    ensures |r| <= |cands|
  {
    if cands == [] then []
    else
      var last := cands[|cands| - 1];
      DisplayList(userId, cands[..|cands| - 1], rows) + (if Displayed(userId, last, rows) then [MergedAll(last, rows)] else [])
  }

  /** The positions of the kept candidates, in increasing order. */
  function DisplayIndices(userId: int, cands: seq<Candidate>, rows: seq<StatusRow>): seq<nat>
  {
    if cands == [] then []
    else
      var n := |cands| - 1;
      DisplayIndices(userId, cands[..n], rows) + (if Displayed(userId, cands[n], rows) then [n] else [])
  }

  /** The displayed list is an order-preserving subsequence of the candidates
      without repeats: the k-th displayed entry is the merged candidate at
      position `idx[k]`, the positions strictly increase, and a position is
      among them exactly when its candidate is kept. */
  lemma {:induction false} DisplayListIsSubsequence(userId: int, cands: seq<Candidate>, rows: seq<StatusRow>)
    ensures var d, idx := DisplayList(userId, cands, rows), DisplayIndices(userId, cands, rows);
      |idx| == |d|
      && (forall k :: 0 <= k < |idx| ==> idx[k] < |cands| && d[k] == MergedAll(cands[idx[k]], rows))
      && (forall k, l :: 0 <= k < l < |idx| ==> idx[k] < idx[l])
      && (forall i :: 0 <= i < |cands| ==> (i in idx <==> Displayed(userId, cands[i], rows)))
  {
    if cands != [] {
      var n := |cands| - 1;
      DisplayListIsSubsequence(userId, cands[..n], rows);
      var idx0 := DisplayIndices(userId, cands[..n], rows);
      forall i | 0 <= i < n
        ensures cands[..n][i] == cands[i]
      {
      }
      assert forall k :: 0 <= k < |idx0| ==> idx0[k] < n;
    }
  }

  /** Every displayed entry had a status row and is one the card offers. */
  lemma DisplayListShown(userId: int, cands: seq<Candidate>, rows: seq<StatusRow>, k: nat)
    requires k < |DisplayList(userId, cands, rows)|
    ensures var c := DisplayList(userId, cands, rows)[k];
      LastRowFor(rows, c.userId).Some? && Shown(userId, c) && IsPending(c)
  {
    DisplayListIsSubsequence(userId, cands, rows);
  }

  /** Every status row that concerns candidate `i` merged into it, in place;
      `currentUser` is the signed-in user's side in the last such row. */
  method MergeCandidate(userId: int, potentialMatches: array<Candidate>, i: nat, matchStatuses: seq<StatusRow>)
    returns (currentUser: Option<Side>)
    requires i < potentialMatches.Length
    modifies potentialMatches
    ensures potentialMatches[i] == MergedAll(old(potentialMatches[i]), matchStatuses)
    ensures forall k :: 0 <= k < potentialMatches.Length && k != i ==> potentialMatches[k] == old(potentialMatches[k])
    ensures currentUser == match LastRowFor(matchStatuses, old(potentialMatches[i]).userId)
                           case None => None
                           case Some(row) => Some(SideOf(userId, row))
  {
    ghost var c := potentialMatches[i];
    currentUser := None;
    var j := 0;
    while j < |matchStatuses|
      invariant 0 <= j <= |matchStatuses|
      invariant forall k :: 0 <= k < potentialMatches.Length && k != i ==> potentialMatches[k] == old(potentialMatches[k])
      invariant potentialMatches[i] == MergedAll(c, matchStatuses[..j])
      invariant currentUser == match LastRowFor(matchStatuses[..j], c.userId)
                               case None => None
                               case Some(row) => Some(SideOf(userId, row))
    {
      var matchStatus := matchStatuses[j];
      LastRowForStep(matchStatuses, j, c.userId);
      MergedAllStep(c, matchStatuses, j);
      if potentialMatches[i].userId == matchStatus.userId1 || potentialMatches[i].userId == matchStatus.userId2 {
        potentialMatches[i] := Merged(potentialMatches[i], matchStatus);
        if userId == matchStatus.userId1 {
          currentUser := Some(User1);
        } else {
          currentUser := Some(User2);
        }
      }
      j := j + 1;
    }
    assert matchStatuses[..|matchStatuses|] == matchStatuses;
  }

  /** The branch for at least as many status rows as candidates: for each
      candidate in turn, merge every row that concerns it, then keep it if it
      is shown for the side the last such row gives the signed-in user. */
  method MergeByCandidate(userId: int, potentialMatches: array<Candidate>, matchStatuses: seq<StatusRow>)
    returns (matchesToDisplay: seq<Candidate>)
    modifies potentialMatches
    ensures forall i :: 0 <= i < potentialMatches.Length ==>
      potentialMatches[i] == MergedAll(old(potentialMatches[i]), matchStatuses)
    ensures matchesToDisplay == DisplayList(userId, old(potentialMatches[..]), matchStatuses)
  {
    ghost var cands := potentialMatches[..];
    matchesToDisplay := [];
    var i := 0;
    while i < potentialMatches.Length
      invariant 0 <= i <= potentialMatches.Length
      invariant forall k :: 0 <= k < i ==> potentialMatches[k] == MergedAll(cands[k], matchStatuses)
      invariant forall k :: i <= k < potentialMatches.Length ==> potentialMatches[k] == cands[k]
      invariant matchesToDisplay == DisplayList(userId, cands[..i], matchStatuses)
    {
      var currentUser := MergeCandidate(userId, potentialMatches, i, matchStatuses);
      assert cands[..i + 1][..i] == cands[..i];
      var potentialMatch := potentialMatches[i];
      if currentUser == Some(User1) {
        if potentialMatch.link.value.matchStatus == Pending && potentialMatch.link.value.user1Status == Pending
          && potentialMatch.matchType != Some("no longer a match") {
          matchesToDisplay := matchesToDisplay + [potentialMatch];
        }
      } else if currentUser == Some(User2) {
        if potentialMatch.link.value.matchStatus == Pending && potentialMatch.link.value.user2Status == Pending
          && potentialMatch.matchType != Some("no longer a match") {
          matchesToDisplay := matchesToDisplay + [potentialMatch];
        }
      }
      i := i + 1;
    }
    assert cands[..potentialMatches.Length] == cands;
  }

  /** Whether `d` is a candidate of `cands` merged with a row concerning it. */
  ghost predicate FromPair(d: Candidate, cands: seq<Candidate>, rows: seq<StatusRow>)
  {
    exists i, j :: 0 <= i < |cands| && 0 <= j < |rows| && Concerns(rows[j], cands[i].userId) && d == Merged(cands[i], rows[j])
  }

  /** The entries pushed while one status row is merged into `cands`: each
      candidate the row concerns, merged with it, when it is then shown. */
  function PushedForRow(userId: int, cands: seq<Candidate>, row: StatusRow): seq<Candidate>
  {
    if cands == [] then []
    else
      var n := |cands| - 1;
      var merged := Merged(cands[n], row);
      PushedForRow(userId, cands[..n], row)
        + (if Concerns(row, cands[n].userId) && Shown(userId, merged) then [merged] else [])
  }

  /** `matchesToDisplay` when there are more candidates than status rows, each
      entry as it was when pushed: row by row, the entries `PushedForRow`
      gives. A row overwrites every field a merge sets, so the candidates'
      state before the row does not matter. */
  function PushedByStatus(userId: int, cands: seq<Candidate>, rows: seq<StatusRow>): seq<Candidate>
  {
    if rows == [] then []
    else
      var n := |rows| - 1;
      PushedByStatus(userId, cands, rows[..n]) + PushedForRow(userId, cands, rows[n])
  }

  /** Every entry pushed for one row is a candidate the row concerns, merged
      with it, shown and pending. */
  lemma {:induction false} PushedForRowShown(userId: int, cands: seq<Candidate>, row: StatusRow, k: nat)
    requires k < |PushedForRow(userId, cands, row)|
    ensures var d := PushedForRow(userId, cands, row)[k];
      Shown(userId, d) && IsPending(d)
      && exists i :: 0 <= i < |cands| && Concerns(row, cands[i].userId) && d == Merged(cands[i], row)
  {
    var n := |cands| - 1;
    var front := PushedForRow(userId, cands[..n], row);
    if k < |front| {
      PushedForRowShown(userId, cands[..n], row, k);
      var i :| 0 <= i < n && Concerns(row, cands[..n][i].userId) && front[k] == Merged(cands[..n][i], row);
      assert cands[..n][i] == cands[i];
    }
  }

  /** Every entry pushed in the branch for more candidates than status rows is
      shown and pending when pushed, and is one candidate merged with one row
      that concerns it. */
  lemma {:induction false} PushedByStatusShown(userId: int, cands: seq<Candidate>, rows: seq<StatusRow>, k: nat)
    requires k < |PushedByStatus(userId, cands, rows)|
    ensures var d := PushedByStatus(userId, cands, rows)[k];
      Shown(userId, d) && IsPending(d) && FromPair(d, cands, rows)
  {
    var n := |rows| - 1;
    var front := PushedByStatus(userId, cands, rows[..n]);
    if k < |front| {
      PushedByStatusShown(userId, cands, rows[..n], k);
      var i, j :| 0 <= i < |cands| && 0 <= j < n && Concerns(rows[..n][j], cands[i].userId)
        && front[k] == Merged(cands[i], rows[..n][j]);
      assert rows[..n][j] == rows[j];
    } else {
      PushedForRowShown(userId, cands, rows[n], k - |front|);
    }
  }

  /** A merged candidate does not depend on what earlier merges left in it. */
  lemma MergedOverwrites(c: Candidate, d: Candidate, row: StatusRow)
    requires c.userId == d.userId && c.demoId == d.demoId
    ensures Merged(c, row) == Merged(d, row)
  {
  }

  /** Merging the rows up to `j` inclusive: the row at `j` wins when it
      concerns the candidate, otherwise the earlier rows decide. */
  lemma MergedAllStep(c: Candidate, rows: seq<StatusRow>, j: nat)
    requires j < |rows|
    ensures MergedAll(c, rows[..j + 1]) ==
      if Concerns(rows[j], c.userId) then Merged(c, rows[j]) else MergedAll(c, rows[..j])
  {
    assert rows[..j + 1][..j] == rows[..j];
  }

  /** The last row among those up to `j` inclusive that concerns `userId`. */
  lemma LastRowForStep(rows: seq<StatusRow>, j: nat, userId: int)
    requires j < |rows|
    ensures LastRowFor(rows[..j + 1], userId) ==
      if Concerns(rows[j], userId) then Some(rows[j]) else LastRowFor(rows[..j], userId)
  {
    assert rows[..j + 1][..j] == rows[..j];
  }

  /** The entries pushed for a row depend only on the candidates' ids and demo ids. */
  lemma {:induction false} PushedForRowSameIds(userId: int, a: seq<Candidate>, b: seq<Candidate>, row: StatusRow)
    requires |a| == |b|
    requires forall i :: 0 <= i < |a| ==> a[i].userId == b[i].userId && a[i].demoId == b[i].demoId
    ensures PushedForRow(userId, a, row) == PushedForRow(userId, b, row)
  {
    if a != [] {
      var n := |a| - 1;
      assert forall i :: 0 <= i < n ==> a[..n][i] == a[i] && b[..n][i] == b[i];
      PushedForRowSameIds(userId, a[..n], b[..n], row);
      MergedOverwrites(a[n], b[n], row);
    }
  }

  /** One status row merged into every candidate it concerns, pushing each
      such candidate at once when it is shown. */
  method MergeRow(userId: int, potentialMatches: array<Candidate>, matchStatus: StatusRow)
    returns (pushed: seq<Candidate>)
    modifies potentialMatches
    ensures forall i :: 0 <= i < potentialMatches.Length ==>
      potentialMatches[i] == if Concerns(matchStatus, old(potentialMatches[i]).userId)
                             then Merged(old(potentialMatches[i]), matchStatus) else old(potentialMatches[i])
    ensures pushed == PushedForRow(userId, old(potentialMatches[..]), matchStatus)
  {
    ghost var before := potentialMatches[..];
    pushed := [];
    var i := 0;
    while i < potentialMatches.Length
      invariant 0 <= i <= potentialMatches.Length
      invariant forall k :: 0 <= k < i ==>
        potentialMatches[k] == if Concerns(matchStatus, before[k].userId) then Merged(before[k], matchStatus) else before[k]
      invariant forall k :: i <= k < potentialMatches.Length ==> potentialMatches[k] == before[k]
      invariant pushed == PushedForRow(userId, before[..i], matchStatus)
    {
      assert before[..i + 1][..i] == before[..i];
      if potentialMatches[i].userId == matchStatus.userId1 || potentialMatches[i].userId == matchStatus.userId2 {
        potentialMatches[i] := Merged(potentialMatches[i], matchStatus);
        var potentialMatch := potentialMatches[i];
        if userId == matchStatus.userId1 {
          if potentialMatch.link.value.matchStatus == Pending && potentialMatch.link.value.user1Status == Pending
            && potentialMatch.matchType != Some("no longer a match") {
            pushed := pushed + [potentialMatch];
          }
        } else {
          if potentialMatch.link.value.matchStatus == Pending && potentialMatch.link.value.user2Status == Pending
            && potentialMatch.matchType != Some("no longer a match") {
            pushed := pushed + [potentialMatch];
          }
        }
      }
      i := i + 1;
    }
    assert before[..potentialMatches.Length] == before;
  }

  /** A pushed entry need not stay shown: with three candidates and two rows
      for the pair (1, 2), the second of which accepts, candidate 2 is pushed
      at the first row, and the second row then merges it into an entry that
      is no longer shown. */
  lemma PushedThenAnswered()
    ensures var c2, c3, c4 := Candidate(2, None, None, None), Candidate(3, None, None, None), Candidate(4, None, None, None);
      var r0 := StatusRow(1, 2, Pending, Pending, Pending, "good", []);
      var r1 := StatusRow(1, 2, Accepted, Pending, Pending, "good", []);
      PushedByStatus(1, [c2, c3, c4], [r0, r1]) == [Merged(c2, r0)]
      && MergedAll(c2, [r0, r1]) == Merged(c2, r1) && !Shown(1, MergedAll(c2, [r0, r1]))
  {
    var c2, c3, c4 := Candidate(2, None, None, None), Candidate(3, None, None, None), Candidate(4, None, None, None);
    var r0 := StatusRow(1, 2, Pending, Pending, Pending, "good", []);
    var r1 := StatusRow(1, 2, Accepted, Pending, Pending, "good", []);
    var cands := [c2, c3, c4];
    assert cands[..2] == [c2, c3] && [c2, c3][..1] == [c2] && [c2][..0] == [];
    assert [r0, r1][..1] == [r0] && [r0][..0] == [];
    assert Some("good") != Some(NoLongerAMatch.Name());
    assert Shown(1, Merged(c2, r0)) && !Shown(1, Merged(c2, r1));
    assert !Concerns(r0, 3) && !Concerns(r0, 4);
    assert PushedForRow(1, [], r0) == [] && PushedForRow(1, [], r1) == [];
    assert PushedForRow(1, [c2], r0) == [Merged(c2, r0)];
    assert PushedForRow(1, [c2, c3], r0) == [Merged(c2, r0)];
    assert PushedForRow(1, cands, r0) == [Merged(c2, r0)];
    assert PushedForRow(1, [c2], r1) == [];
    assert PushedForRow(1, [c2, c3], r1) == [];
    assert PushedForRow(1, cands, r1) == [];
    assert PushedByStatus(1, cands, [r0]) == [Merged(c2, r0)];
    assert LastRowFor([r0, r1], 2) == Some(r1);
  }

  /** The branch for more candidates than status rows: for each row in turn,
      merge it into every candidate it concerns and push the candidate at once
      if it is shown. An entry is recorded as it was when it was pushed. */
  method MergeByStatus(userId: int, potentialMatches: array<Candidate>, matchStatuses: seq<StatusRow>)
    returns (matchesToDisplay: seq<Candidate>)
    modifies potentialMatches
    ensures forall i :: 0 <= i < potentialMatches.Length ==>
      potentialMatches[i] == MergedAll(old(potentialMatches[i]), matchStatuses)
    ensures matchesToDisplay == PushedByStatus(userId, old(potentialMatches[..]), matchStatuses)
    ensures forall k :: 0 <= k < |matchesToDisplay| ==>
      Shown(userId, matchesToDisplay[k]) && IsPending(matchesToDisplay[k])
      && FromPair(matchesToDisplay[k], old(potentialMatches[..]), matchStatuses)
  {
    ghost var cands := potentialMatches[..];
    matchesToDisplay := [];
    var j := 0;
    while j < |matchStatuses|
      invariant 0 <= j <= |matchStatuses|
      invariant forall i :: 0 <= i < potentialMatches.Length ==>
        potentialMatches[i] == MergedAll(cands[i], matchStatuses[..j])
      invariant matchesToDisplay == PushedByStatus(userId, cands, matchStatuses[..j])
    {
      var matchStatus := matchStatuses[j];
      ghost var before := potentialMatches[..];
      var pushed := MergeRow(userId, potentialMatches, matchStatus);
      PushedForRowSameIds(userId, before, cands, matchStatus);
      forall i | 0 <= i < potentialMatches.Length
        ensures potentialMatches[i] == MergedAll(cands[i], matchStatuses[..j + 1])
      {
        MergedAllStep(cands[i], matchStatuses, j);
        MergedOverwrites(before[i], cands[i], matchStatus);
      }
      assert matchStatuses[..j + 1][..j] == matchStatuses[..j];
      matchesToDisplay := matchesToDisplay + pushed;
      j := j + 1;
    }
    assert matchStatuses[..|matchStatuses|] == matchStatuses;
    forall k | 0 <= k < |matchesToDisplay|
      ensures Shown(userId, matchesToDisplay[k]) && IsPending(matchesToDisplay[k])
        && FromPair(matchesToDisplay[k], cands, matchStatuses)
    {
      PushedByStatusShown(userId, cands, matchStatuses, k);
    }
  }

  /** The reply of the post-matches call, merged into the candidates: the
      branch depends on which of the two lists is longer. */
  method LoadPendingMatches(userId: int, potentialMatches: array<Candidate>, matchStatuses: seq<StatusRow>)
    returns (matchesToDisplay: seq<Candidate>)
    modifies potentialMatches
    ensures forall i :: 0 <= i < potentialMatches.Length ==>
      potentialMatches[i] == MergedAll(old(potentialMatches[i]), matchStatuses)
    ensures forall k :: 0 <= k < |matchesToDisplay| ==> Shown(userId, matchesToDisplay[k]) && IsPending(matchesToDisplay[k])
    ensures potentialMatches.Length <= |matchStatuses| ==>
      matchesToDisplay == DisplayList(userId, old(potentialMatches[..]), matchStatuses)
    ensures potentialMatches.Length > |matchStatuses| ==>
      matchesToDisplay == PushedByStatus(userId, old(potentialMatches[..]), matchStatuses)
  {
    if potentialMatches.Length <= |matchStatuses| {
      matchesToDisplay := MergeByCandidate(userId, potentialMatches, matchStatuses);
      forall k | 0 <= k < |matchesToDisplay|
        ensures Shown(userId, matchesToDisplay[k]) && IsPending(matchesToDisplay[k])
      {
        DisplayListShown(userId, old(potentialMatches[..]), matchStatuses, k);
      }
    } else {
      matchesToDisplay := MergeByStatus(userId, potentialMatches, matchStatuses);
    }
  }

  /** What the card does when it mounts, once the find-matches reply holds
      candidates: build `allMatchTypes`, copy the tiers into the candidates,
      then merge the post-matches reply and keep the pending pairs. */
  method FindMatches(user: Person, potentialMatches: array<Candidate>, matchSelections: seq<SelectionRow>,
                     matchStatuses: seq<StatusRow>)
    returns (allMatchTypes: seq<PairRecord>, matchesToDisplay: seq<Candidate>)
    modifies potentialMatches
    ensures |allMatchTypes| == potentialMatches.Length
    ensures forall i :: 0 <= i < potentialMatches.Length ==>
      allMatchTypes[i] == PairRecordFor(user, PersonOf(old(potentialMatches[i])),
                                        TierOf(SharedCount(matchSelections, user.userId, old(potentialMatches[i]).userId)))
    ensures forall i :: 0 <= i < potentialMatches.Length ==>
      potentialMatches[i] == MergedAll(WithTier(old(potentialMatches[i]), allMatchTypes), matchStatuses)
    ensures forall k :: 0 <= k < |matchesToDisplay| ==> Shown(user.userId, matchesToDisplay[k]) && IsPending(matchesToDisplay[k])
    ensures potentialMatches.Length <= |matchStatuses| ==>
      matchesToDisplay == DisplayList(user.userId, Tiered(old(potentialMatches[..]), allMatchTypes), matchStatuses)
    ensures potentialMatches.Length > |matchStatuses| ==>
      matchesToDisplay == PushedByStatus(user.userId, Tiered(old(potentialMatches[..]), allMatchTypes), matchStatuses)
  {
    allMatchTypes := BuildMatchTypes(user, potentialMatches[..], matchSelections);
    ApplyMatchTypes(potentialMatches, allMatchTypes);
    assert potentialMatches[..] == Tiered(old(potentialMatches[..]), allMatchTypes);
    matchesToDisplay := LoadPendingMatches(user.userId, potentialMatches, matchStatuses);
  }

  // ---------------------------------------------------------------------------
  // Status patch

  /** Whether a displayed entry is the pair (`userId1`, `userId2`). */
  predicate IsPair(c: Candidate, userId1: int, userId2: int)
  {
    c.link.Some? && c.link.value.userId1 == userId1 && c.link.value.userId2 == userId2
  }

  /** An entry after the answer `status` to the pair (`userId1`, `userId2`):
      only an entry of that pair changes, and only its `newUserStatus`. */
  function Patched(c: Candidate, userId1: int, userId2: int, status: Status): (r: Candidate)
    ensures IsPair(c, userId1, userId2) ==> r.link.Some? && r.link.value.newUserStatus == status
    ensures IsPair(c, userId1, userId2) ==> r == c.(link := Some(c.link.value.(newUserStatus := status)))
    ensures !IsPair(c, userId1, userId2) ==> r == c
  {
    if IsPair(c, userId1, userId2) then c.(link := Some(c.link.value.(newUserStatus := status))) else c
  }

  /** Sets `newUserStatus` on every entry of the pair, in place. */
  method PatchNewUserStatus(matchesToDisplay: array<Candidate>, userId1: int, userId2: int, status: Status)
    modifies matchesToDisplay
    ensures forall i :: 0 <= i < matchesToDisplay.Length ==>
      matchesToDisplay[i] == Patched(old(matchesToDisplay[i]), userId1, userId2, status)
  {
    var i := 0;
    while i < matchesToDisplay.Length
      invariant 0 <= i <= matchesToDisplay.Length
      invariant forall k :: 0 <= k < i ==> matchesToDisplay[k] == Patched(old(matchesToDisplay[k]), userId1, userId2, status)
      invariant forall k :: i <= k < matchesToDisplay.Length ==> matchesToDisplay[k] == old(matchesToDisplay[k])
    {
      var entry := matchesToDisplay[i];
      if entry.link.Some? && userId1 == entry.link.value.userId1 && userId2 == entry.link.value.userId2 {
        matchesToDisplay[i] := entry.(link := Some(entry.link.value.(newUserStatus := status)));
      }
      i := i + 1;
    }
  }

  /** A click on Accept or Decline: build the request, then, once the server
      has answered, patch the displayed entries of that pair. */
  method HandleSubmit(currentUserId: int, otherUserId: int, status: Status, matchesToDisplay: array<Candidate>)
    returns (request: StatusUpdate)
    modifies matchesToDisplay
    ensures request == StatusUpdateFor(currentUserId, otherUserId, status)
    ensures forall i :: 0 <= i < matchesToDisplay.Length ==>
      matchesToDisplay[i] == Patched(old(matchesToDisplay[i]), request.userId1, request.userId2, status)
  {
    var userId1, userId2, statusToUpdate;
    if currentUserId < otherUserId {
      userId1, userId2, statusToUpdate := currentUserId, otherUserId, User1;
    } else {
      userId1, userId2, statusToUpdate := otherUserId, currentUserId, User2;
    }
    request := StatusUpdate(userId1, userId2, statusToUpdate, status);
    PatchNewUserStatus(matchesToDisplay, userId1, userId2, status);
  }

  // ---------------------------------------------------------------------------
  // Card selection and label

  /** Whether a displayed entry still waits for the signed-in user's answer. */
  predicate IsPending(c: Candidate)
  {
    c.link.Some? && c.link.value.newUserStatus == Pending
  }

  /** `render`'s scan: the first entry still pending, and whether it has more
      than three shared dislikes. A null array is the state before the
      matches have loaded. */
  method SelectCard(matchesToDisplay: array?<Candidate>) returns (selected: Option<nat>, moreThan3: bool)
    ensures selected.Some? ==>
              && matchesToDisplay != null && selected.value < matchesToDisplay.Length
              && IsPending(matchesToDisplay[selected.value])
              && forall k :: 0 <= k < selected.value ==> !IsPending(matchesToDisplay[k])
    ensures selected.None? ==> matchesToDisplay == null || forall k :: 0 <= k < matchesToDisplay.Length ==> !IsPending(matchesToDisplay[k])
    ensures moreThan3 <==> selected.Some? && |matchesToDisplay[selected.value].link.value.matchSelections| > 3
  {
    selected, moreThan3 := None, false;
    if matchesToDisplay != null {
      var i := 0;
      while i < matchesToDisplay.Length
        invariant 0 <= i <= matchesToDisplay.Length
        invariant forall k :: 0 <= k < i ==> !IsPending(matchesToDisplay[k])
      {
        var entry := matchesToDisplay[i];
        if entry.link.Some? && entry.link.value.newUserStatus == Pending {
          selected := Some(i);
          if |entry.link.value.matchSelections| > 3 {
            moreThan3 := true;
          }
          break;
        }
        i := i + 1;
      }
    }
  }

  /** The pair a click on a card sends is the card's own pair, when the card
      holds its two ids in order and one of them is the signed-in user. */
  lemma ClickNamesCard(user: int, c: Candidate, status: Status)
    requires c.link.Some? && c.link.value.userId1 < c.link.value.userId2
    requires {c.link.value.userId1, c.link.value.userId2} == {user, c.userId}
    ensures var req := StatusUpdateFor(user, c.userId, status);
      IsPair(c, req.userId1, req.userId2)
  {
  }

  /** After the user answers the card on show, the first pending entry is a
      later one: every entry up to the answered one is no longer pending, and
      every later entry of another pair keeps its state. The patch uses the
      pair the click sends; the card holds its pair in order, as the merged
      status rows do. */
  lemma AnswerMovesCard(user: int, entries: seq<Candidate>, k: nat, status: Status)
    requires k < |entries| && IsPending(entries[k]) && status != Pending
    requires entries[k].link.value.userId1 < entries[k].link.value.userId2
    requires {entries[k].link.value.userId1, entries[k].link.value.userId2} == {user, entries[k].userId}
    requires forall j :: 0 <= j < k ==> !IsPending(entries[j])
    ensures var req := StatusUpdateFor(user, entries[k].userId, status);
      var after := seq(|entries|, i requires 0 <= i < |entries| => Patched(entries[i], req.userId1, req.userId2, req.status));
      (forall j :: 0 <= j <= k ==> !IsPending(after[j]))
      && (forall j :: k < j < |entries| && !IsPair(entries[j], req.userId1, req.userId2) ==> after[j] == entries[j])
  {
    ClickNamesCard(user, entries[k], status);
  }

  /** The card's `matchTypeDescription`; undefined when no card is selected. */
  function CardDescription(matchType: Option<string>): (r: Option<string>)
    requires matchType.Some? ==> |matchType.value| > 0
    ensures r.None? <==> matchType.None?
    ensures matchType.Some? ==> var s := matchType.value;
      |r.value| == |s| + 7 && r.value[0] == UpperChar(s[0]) && r.value[1..|s|] == s[1..] && r.value[|s|..] == " Match!"
  {
    match matchType
    case None => None
    case Some(s) => Some(MatchLabel(s))
  }

  /** The label and colour class the card gives each tier; the card has no
      colour for 'no longer a match', which it never shows. */
  lemma CardLabels()
    ensures CardDescription(Some(Perfect.Name())) == Some("Perfect Match!")
    ensures CardDescription(Some(Great.Name())) == Some("Great Match!")
    ensures CardDescription(Some(Good.Name())) == Some("Good Match!")
    ensures CardDescription(Some(NoLongerAMatch.Name())) == Some("No longer a match Match!")
    ensures LabelColour(CardDescription(Some(Perfect.Name()))) == Some("yellow")
    ensures LabelColour(CardDescription(Some(Great.Name()))) == Some("green")
    ensures LabelColour(CardDescription(Some(Good.Name()))) == Some("danger")
    ensures LabelColour(CardDescription(Some(NoLongerAMatch.Name()))) == None
    ensures LabelColour(CardDescription(None)) == None
  {
    assert UpperChar('p') == 'P' && UpperChar('g') == 'G' && UpperChar('n') == 'N';
    assert Capitalised("perfect") == "Perfect";
    assert "Perfect" + " Match!" == "Perfect Match!";
    assert Capitalised("great") == "Great";
    assert "Great" + " Match!" == "Great Match!";
    assert Capitalised("good") == "Good";
    assert "Good" + " Match!" == "Good Match!";
    assert Capitalised("no longer a match") == "No longer a match";
    assert "No longer a match" + " Match!" == "No longer a match Match!";
  }
}
