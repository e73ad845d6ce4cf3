/** The checks `updateTournamentStructure` (src/server/tournament-service.ts)
    makes before it rewrites a tournament's group assignments and matches.
    The tournament as loaded from the database is a parameter. */
module StructureUpdate {
  import opened Outcomes
  import opened Seqs
  import opened Schedule

  /** The stored tournament: its mode, registered players, and the players of each group. */
  datatype Stored = Stored(mode: TournamentMode, participants: set<Id>, groups: map<string, set<Id>>)

  /** A group of the update payload and its new members. */
  datatype GroupUpdate = GroupUpdate(id: string, participantIds: seq<Id>)

  /** A match of the update payload. */
  datatype MatchUpdate = MatchUpdate(groupId: string, team1Ids: seq<Id>, team2Ids: seq<Id>)

  /** The errors the checks throw, in the order they are tried. */
  datatype StructureError =
    | UnknownGroup
    | UnregisteredMember
    | AssignedTwice
    | UnknownMatchGroup
    | TeamsSharePlayers
    | WrongTeamSize
    | UnregisteredPlayer
    | PlayerOutsideGroup

  // The group assignments.

  /** The inner `forEach` over one group's members: each must be registered and
      not seen before; the result is the grown `seen` set. */
  function CheckMembers(ids: seq<Id>, participants: set<Id>, seen: set<Id>): Result<set<Id>, StructureError>
    decreases |ids|
  {
    if |ids| == 0 then Ok(seen)
    else if ids[0] !in participants then Err(UnregisteredMember)
    else if ids[0] in seen then Err(AssignedTwice)
    else CheckMembers(ids[1..], participants, seen + {ids[0]})
  }

  /** The loop over `payload.groups`. */
  function CheckGroups(groups: seq<GroupUpdate>, stored: Stored, seen: set<Id>): Result<set<Id>, StructureError>
    decreases |groups|
  {
    if |groups| == 0 then Ok(seen)
    else if groups[0].id !in stored.groups then Err(UnknownGroup)
    else
      match CheckMembers(groups[0].participantIds, stored.participants, seen)
      case Err(e) => Err(e)
      case Ok(seen') => CheckGroups(groups[1..], stored, seen')
  }

  function MemberLists(groups: seq<GroupUpdate>): (r: seq<seq<Id>>)
    ensures |r| == |groups|
    ensures forall i | 0 <= i < |groups| :: r[i] == groups[i].participantIds
  {
    seq(|groups|, i requires 0 <= i < |groups| => groups[i].participantIds)
  }

  /** Reference condition for the group assignments: every group exists,
      every member is registered, and no player is listed twice anywhere. */
  predicate AssignmentsSound(groups: seq<GroupUpdate>, stored: Stored, seen: set<Id>) {
    && (forall i | 0 <= i < |groups| :: groups[i].id in stored.groups)
    && (forall x | x in Flatten(MemberLists(groups)) :: x in stored.participants && x !in seen)
    && Distinct(Flatten(MemberLists(groups)))
  }

  lemma {:induction false} CheckMembersMeans(ids: seq<Id>, participants: set<Id>, seen: set<Id>)
    ensures CheckMembers(ids, participants, seen).Ok? <==>
              (forall x | x in ids :: x in participants && x !in seen) && Distinct(ids)
    ensures CheckMembers(ids, participants, seen).Ok? ==>
              CheckMembers(ids, participants, seen).value == seen + set x | x in ids
    decreases |ids|
  {
    if |ids| > 0 {
      CheckMembersMeans(ids[1..], participants, seen + {ids[0]});
      assert ids == [ids[0]] + ids[1..];
      assert Distinct(ids) <==> ids[0] !in ids[1..] && Distinct(ids[1..]) by {
        if Distinct(ids) {
          forall j | 0 <= j < |ids[1..]| ensures ids[1..][j] != ids[0] {
            assert ids[1..][j] == ids[j + 1];
          }
        }
        if ids[0] !in ids[1..] && Distinct(ids[1..]) {
          forall i, j | 0 <= i < j < |ids| ensures ids[i] != ids[j] {
            if i == 0 {
              assert ids[j] == ids[1..][j - 1];
            } else {
              assert ids[i] == ids[1..][i - 1] && ids[j] == ids[1..][j - 1];
            }
          }
        }
      }
      assert (set x | x in ids) == {ids[0]} + set x | x in ids[1..];
    }
  }

  lemma MemberListsTail(groups: seq<GroupUpdate>)
    requires |groups| > 0
    ensures Flatten(MemberLists(groups)) == groups[0].participantIds + Flatten(MemberLists(groups[1..]))
  {
    assert MemberLists(groups)[1..] == MemberLists(groups[1..]);
  }

  /** The group checks pass exactly when the assignments are sound. */
  lemma {:induction false} CheckGroupsMeans(groups: seq<GroupUpdate>, stored: Stored, seen: set<Id>)
    ensures CheckGroups(groups, stored, seen).Ok? <==> AssignmentsSound(groups, stored, seen)
    decreases |groups|
  {
    if |groups| > 0 {
      var ids := groups[0].participantIds;
      var rest := Flatten(MemberLists(groups[1..]));
      MemberListsTail(groups);
      DistinctAppend(ids, rest);
      CheckMembersMeans(ids, stored.participants, seen);
      var seen' := seen + set x | x in ids;
      CheckGroupsMeans(groups[1..], stored, seen');
      if groups[0].id in stored.groups && CheckMembers(ids, stored.participants, seen).Ok? {
        assert CheckGroups(groups, stored, seen) == CheckGroups(groups[1..], stored, seen');
        GroupsSoundStep(groups, stored, seen);
      } else if groups[0].id !in stored.groups {
        assert !(forall i | 0 <= i < |groups| :: groups[i].id in stored.groups);
      }
    }
  }

  /** One step of `CheckGroupsMeans` once the head group has passed. */
  lemma GroupsSoundStep(groups: seq<GroupUpdate>, stored: Stored, seen: set<Id>)
    requires |groups| > 0 && groups[0].id in stored.groups
    requires (forall x | x in groups[0].participantIds :: x in stored.participants && x !in seen)
    requires Distinct(groups[0].participantIds)
    ensures AssignmentsSound(groups, stored, seen) <==>
              AssignmentsSound(groups[1..], stored, seen + set x | x in groups[0].participantIds)
  {
    var ids := groups[0].participantIds;
    var rest := Flatten(MemberLists(groups[1..]));
    MemberListsTail(groups);
    DistinctAppend(ids, rest);
    assert forall i | 1 <= i < |groups| :: groups[1..][i - 1] == groups[i];
  }

  function GroupIds(groups: seq<GroupUpdate>): set<string> {
    set g | g in groups :: g.id
  }

  /** `assignmentAfterUpdate`: the stored groups, with each updated group's
      members replaced by the listed ones (a later entry for the same group wins). */
  function AssignmentAfter(groups: seq<GroupUpdate>, base: map<string, set<Id>>): (r: map<string, set<Id>>)
    ensures r.Keys == base.Keys + GroupIds(groups)
    decreases |groups|
  {
    if |groups| == 0 then base
    else
      var init := groups[..|groups| - 1];
      var g := groups[|groups| - 1];
      assert groups == init + [g];
      assert GroupIds(groups) == GroupIds(init) + {g.id};
      AssignmentAfter(init, base)[g.id := set x | x in g.participantIds]
  }

  /** A group the update does not mention keeps its stored members. */
  lemma {:induction false} AssignmentAfterUntouched(groups: seq<GroupUpdate>, base: map<string, set<Id>>, id: string)
    requires id in base && forall i | 0 <= i < |groups| :: groups[i].id != id
    ensures AssignmentAfter(groups, base)[id] == base[id]
    decreases |groups|
  {
    if |groups| > 0 {
      var init := groups[..|groups| - 1];
      assert forall i | 0 <= i < |init| :: init[i] == groups[i];
      AssignmentAfterUntouched(init, base, id);
    }
  }

  /** A group the update mentions gets the members of its last entry. */
  lemma {:induction false} AssignmentAfterLastWins(groups: seq<GroupUpdate>, base: map<string, set<Id>>, i: nat)
    requires i < |groups| && forall j | i < j < |groups| :: groups[j].id != groups[i].id
    ensures groups[i].id in AssignmentAfter(groups, base)
    ensures AssignmentAfter(groups, base)[groups[i].id] == set x | x in groups[i].participantIds
    decreases |groups|
  {
    assert groups[i] in groups;
    if i < |groups| - 1 {
      var init := groups[..|groups| - 1];
      assert forall j | 0 <= j < |init| :: init[j] == groups[j];
      AssignmentAfterLastWins(init, base, i);
    }
  }

  /** The assignment the matches are checked against. */
  function After(stored: Stored, groups: Option<seq<GroupUpdate>>): map<string, set<Id>> {
    if groups.Some? then AssignmentAfter(groups.value, stored.groups) else stored.groups
  }

  // The matches.

  /** The players a side has: one in singles, two in doubles. */
  function TeamSize(mode: TournamentMode): nat {
    if mode == Singles then 1 else 2
  }

  /** The inner loop over a match's players: each registered and in the group. */
  function CheckPlayers(players: seq<Id>, participants: set<Id>, membership: set<Id>): Result<(), StructureError>
    decreases |players|
  {
    if |players| == 0 then Ok(())
    else if players[0] !in participants then Err(UnregisteredPlayer)
    else if players[0] !in membership then Err(PlayerOutsideGroup)
    else CheckPlayers(players[1..], participants, membership)
  }

  /** One match of `payload.matches`, against the assignment after the update. */
  function CheckMatch(m: MatchUpdate, stored: Stored, after: map<string, set<Id>>): Result<(), StructureError> {
    var combined := m.team1Ids + m.team2Ids;
    var membership := if m.groupId in after then after[m.groupId] else {};
    if m.groupId !in stored.groups then Err(UnknownMatchGroup)
    // `combined.length !== new Set(combined).size`: no player twice in a match.
    else if |combined| != |set x | x in combined| then Err(TeamsSharePlayers)
    else if |m.team1Ids| != TeamSize(stored.mode) || |m.team2Ids| != TeamSize(stored.mode) then Err(WrongTeamSize)
    else CheckPlayers(combined, stored.participants, membership)
  }

  function CheckMatches(ms: seq<MatchUpdate>, stored: Stored, after: map<string, set<Id>>): Result<(), StructureError>
    decreases |ms|
  {
    if |ms| == 0 then Ok(())
    else
      match CheckMatch(ms[0], stored, after)
      case Err(e) => Err(e)
      case Ok(_) => CheckMatches(ms[1..], stored, after)
  }

  /** Reference condition for one match: a stored group, teams of the mode's
      size sharing nobody, every player registered and assigned to that group. */
  predicate MatchSound(m: MatchUpdate, stored: Stored, after: map<string, set<Id>>) {
    && m.groupId in stored.groups
    && Distinct(m.team1Ids + m.team2Ids)
    && |m.team1Ids| == TeamSize(stored.mode) && |m.team2Ids| == TeamSize(stored.mode)
    && m.groupId in after
    && forall x | x in m.team1Ids + m.team2Ids :: x in stored.participants && x in after[m.groupId]
  }

  lemma {:induction false} CheckPlayersMeans(players: seq<Id>, participants: set<Id>, membership: set<Id>)
    ensures CheckPlayers(players, participants, membership).Ok? <==>
              forall x | x in players :: x in participants && x in membership
    decreases |players|
  {
    if |players| > 0 {
      CheckPlayersMeans(players[1..], participants, membership);
      assert forall x | x in players :: x == players[0] || x in players[1..];
    }
  }

  lemma CheckMatchMeans(m: MatchUpdate, stored: Stored, after: map<string, set<Id>>)
    requires stored.groups.Keys <= after.Keys
    ensures CheckMatch(m, stored, after).Ok? <==> MatchSound(m, stored, after)
  {
    var combined := m.team1Ids + m.team2Ids;
    DistinctCardinality(combined);
    var membership := if m.groupId in after then after[m.groupId] else {};
    CheckPlayersMeans(combined, stored.participants, membership);
  }

  lemma {:induction false} CheckMatchesMeans(ms: seq<MatchUpdate>, stored: Stored, after: map<string, set<Id>>)
    requires stored.groups.Keys <= after.Keys
    ensures CheckMatches(ms, stored, after).Ok? <==> forall i | 0 <= i < |ms| :: MatchSound(ms[i], stored, after)
    decreases |ms|
  {
    if |ms| > 0 {
      CheckMatchMeans(ms[0], stored, after);
      CheckMatchesMeans(ms[1..], stored, after);
      assert forall i | 1 <= i < |ms| :: ms[1..][i - 1] == ms[i];
    }
  }

  // The whole validation.

  /** The validation part of `updateTournamentStructure`: the assignment map
      it writes, or the first error it throws. */
  function ValidateStructureUpdate(stored: Stored, groups: Option<seq<GroupUpdate>>, matches: Option<seq<MatchUpdate>>)
    : (r: Result<map<string, set<Id>>, StructureError>)
    ensures groups.None? && r.Ok? ==> r.value == stored.groups
    ensures groups.None? && matches.None? ==> r == Ok(stored.groups)
  {
    var groupCheck := if groups.Some? then CheckGroups(groups.value, stored, {}) else Ok({});
    if groupCheck.Err? then Err(groupCheck.error)
    else
      var after := After(stored, groups);
      var matchCheck := if matches.Some? then CheckMatches(matches.value, stored, after) else Ok(());
      if matchCheck.Err? then Err(matchCheck.error)
      else Ok(after)
  }

  /** The update is accepted exactly when the group assignments are sound and
      every match is sound against the assignment after the update; the
      accepted assignment covers exactly the stored groups. */
  lemma ValidateStructureUpdateMeans(stored: Stored, groups: Option<seq<GroupUpdate>>, matches: Option<seq<MatchUpdate>>)
    ensures var r := ValidateStructureUpdate(stored, groups, matches);
            r.Ok? <==>
              && (groups.Some? ==> AssignmentsSound(groups.value, stored, {}))
              && (matches.Some? ==> forall i | 0 <= i < |matches.value| ::
                    MatchSound(matches.value[i], stored, After(stored, groups)))
    ensures var r := ValidateStructureUpdate(stored, groups, matches);
            r.Ok? ==> r.value.Keys == stored.groups.Keys
  {
    if groups.Some? {
      CheckGroupsMeans(groups.value, stored, {});
    }
    var groupCheck := if groups.Some? then CheckGroups(groups.value, stored, {}) else Ok({});
    if groupCheck.Ok? {
      var after := After(stored, groups);
      if groups.Some? {
        assert GroupIds(groups.value) <= stored.groups.Keys;
      }
      if matches.Some? {
        CheckMatchesMeans(matches.value, stored, after);
      }
    }
  }

  /** After an accepted update no player sits in two of the updated groups. */
  lemma AcceptedGroupsDisjoint(stored: Stored, groups: seq<GroupUpdate>, matches: Option<seq<MatchUpdate>>, i: nat, j: nat, x: Id)
    requires ValidateStructureUpdate(stored, Some(groups), matches).Ok?
    requires i < j < |groups| && x in groups[i].participantIds
    ensures x !in groups[j].participantIds
  {
    ValidateStructureUpdateMeans(stored, Some(groups), matches);
    var lists := MemberLists(groups);
    FlattenSplit(lists, i, j, x);
  }
}
