/**
 * `deleteExistingRules`: for every described security group, record its id;
 * when it has at least one ingress permission, delete the descriptive keys
 * from the described object itself (and the IPv6, prefix-list and group-pair
 * keys from its first permission) and send that object as the revoke request.
 */
module Purge {
  import opened Records

  /** `IpPermissions[0]` after `UserIdGroupPairs`, `PrefixListIds` and `Ipv6Ranges` are deleted. */
  function StrippedPermission(p: Permission): Permission
  {
    p.(userIdGroupPairs := None, prefixListIds := None, ipv6Ranges := None)
  }

  /**
   * The described record as the revoke request: only `GroupId` and the whole
   * `IpPermissions` list remain, and only the first permission loses keys.
   */
  function Stripped(r: GroupRecord): GroupRecord
    requires |r.ipPermissions| > 0
  {
    r.(ownerId := None, description := None, ipPermissionsEgress := None, vpcId := None,
       tags := None, groupName := None,
       ipPermissions := r.ipPermissions[0 := StrippedPermission(r.ipPermissions[0])])
  }

  /**
   * The revoke request keeps `GroupId` and every `IpPermissions` entry, drops
   * every other top-level key, drops three keys of the first entry only, and
   * stripping it again changes nothing.
   */
  lemma StrippedSpec(r: GroupRecord)
    requires |r.ipPermissions| > 0
    ensures OnlyIdAndPermissions(Stripped(r))
    ensures Stripped(r).groupId == r.groupId
    ensures |Stripped(r).ipPermissions| == |r.ipPermissions|
    ensures Stripped(r).ipPermissions[1..] == r.ipPermissions[1..]
    ensures Stripped(r).ipPermissions[0] == StrippedPermission(r.ipPermissions[0])
    ensures var first, q := r.ipPermissions[0], Stripped(r).ipPermissions[0];
      && q.fromPort == first.fromPort && q.toPort == first.toPort
      && q.ipProtocol == first.ipProtocol && q.ipRanges == first.ipRanges
      && q.userIdGroupPairs.None? && q.prefixListIds.None? && q.ipv6Ranges.None?
    ensures Stripped(Stripped(r)) == Stripped(r)
  {
  }

  predicate HasIngressRules(r: GroupRecord)
  {
    |r.ipPermissions| > 0
  }

  /** A described record after the purge has looked at it. */
  function PurgeOutcome(r: GroupRecord): GroupRecord
  {
    if HasIngressRules(r) then Stripped(r) else r
  }

  /**
   * Visiting a group twice, as happens when the same object is described
   * twice, ends as visiting it once and makes the same decision each time.
   */
  lemma PurgeOutcomeTwice(r: GroupRecord)
    ensures PurgeOutcome(PurgeOutcome(r)) == PurgeOutcome(r)
    ensures HasIngressRules(PurgeOutcome(r)) == HasIngressRules(r)
    ensures PurgeOutcome(r).groupId == r.groupId
  {
    if HasIngressRules(r) {
      StrippedSpec(r);
    }
  }

  /** The ids `deleteExistingRules` returns: one per described group, in order. */
  function GroupIds(records: seq<GroupRecord>): seq<string>
  {
    seq(|records|, i requires 0 <= i < |records| => records[i].groupId)
  }

  /** A list holding, position by position, the id of each described record is `GroupIds`. */
  lemma GroupIdsUnique(records: seq<GroupRecord>, ids: seq<string>)
    requires |ids| == |records|
    requires forall k :: 0 <= k < |records| ==> ids[k] == records[k].groupId
    ensures ids == GroupIds(records)
  {
  }

  /** The revoke requests of the purge, in the order they are sent. */
  function RevokeRequests(records: seq<GroupRecord>): seq<GroupRecord>
  {
    RevokesOfPrefix(records, |records|)
  }

  /** The revoke requests sent while visiting the first `n` described groups. */
  function RevokesOfPrefix(records: seq<GroupRecord>, n: nat): seq<GroupRecord>
    requires n <= |records|
  {
    if n == 0 then []
    else
      RevokesOfPrefix(records, n - 1) +
      (if HasIngressRules(records[n - 1]) then [Stripped(records[n - 1])] else [])
  }

  /**
   * `revokes` is one stripped request per group with ingress rules among the
   * first `n`, for every such group, in the groups' order; `idx` names the
   * group of each request.
   */
  ghost predicate RevokePlan(records: seq<GroupRecord>, n: nat, revokes: seq<GroupRecord>, idx: seq<nat>)
    requires n <= |records|
  {
    && |idx| == |revokes|
    && (forall k :: 0 <= k < |idx| ==>
          idx[k] < n && HasIngressRules(records[idx[k]]) && revokes[k] == Stripped(records[idx[k]]))
    && (forall k, l :: 0 <= k < l < |idx| ==> idx[k] < idx[l])
    && (forall i :: 0 <= i < n && HasIngressRules(records[i]) ==> i in idx)
  }

  /** Visiting one more described group extends a revoke plan by its request, if any. */
  lemma RevokePlanStep(records: seq<GroupRecord>, n: nat, idx: seq<nat>)
    requires n < |records| && RevokePlan(records, n, RevokesOfPrefix(records, n), idx)
    ensures HasIngressRules(records[n]) ==>
      RevokePlan(records, n + 1, RevokesOfPrefix(records, n + 1), idx + [n])
    ensures !HasIngressRules(records[n]) ==>
      RevokePlan(records, n + 1, RevokesOfPrefix(records, n + 1), idx)
  {
    var revokes := RevokesOfPrefix(records, n);
    if HasIngressRules(records[n]) {
      var idx' := idx + [n];
      assert RevokesOfPrefix(records, n + 1) == revokes + [Stripped(records[n])];
      forall i | 0 <= i < n + 1 && HasIngressRules(records[i])
        ensures i in idx'
      {
        if i < n {
          assert i in idx;
        } else {
          assert idx'[|idx|] == i;
        }
      }
    } else {
      assert RevokesOfPrefix(records, n + 1) == revokes;
    }
  }

  /** The revoke plan of the first `n` groups, built one visit at a time. */
  lemma {:induction false} PlanOfPrefix(records: seq<GroupRecord>, n: nat) returns (idx: seq<nat>)
    requires n <= |records|
    ensures RevokePlan(records, n, RevokesOfPrefix(records, n), idx)
  {
    if n == 0 {
      idx := [];
    } else {
      var m := n - 1;
      var prior := PlanOfPrefix(records, m);
      RevokePlanStep(records, m, prior);
      if HasIngressRules(records[m]) {
        idx := prior + [m];
      } else {
        idx := prior;
      }
    }
  }

  /** The purge sends exactly one revoke per group with ingress rules, in order, and none otherwise. */
  lemma RevokeRequestsFollowGroups(records: seq<GroupRecord>)
    ensures exists idx :: RevokePlan(records, |records|, RevokeRequests(records), idx)
  {
    var idx := PlanOfPrefix(records, |records|);
    assert RevokePlan(records, |records|, RevokeRequests(records), idx);
  }

  /**
   * `q` is the revoke request of `r`: same id and number of permissions,
   * permission `p` with the same IPv4 ranges, and the first permission
   * without IPv6, prefix-list or group-pair rules.
   */
  ghost predicate RevokeKeeps(r: GroupRecord, p: nat, q: GroupRecord)
    requires p < |r.ipPermissions|
  {
    && q.groupId == r.groupId
    && |q.ipPermissions| == |r.ipPermissions|
    && q.ipPermissions[p].ipRanges == r.ipPermissions[p].ipRanges
    && q.ipPermissions[0].ipv6Ranges.None?
    && q.ipPermissions[0].prefixListIds.None?
    && q.ipPermissions[0].userIdGroupPairs.None?
  }

  /** The purge revokes every IPv4 range of every permission of a described group, whatever its description. */
  lemma RevokeKeepsRanges(records: seq<GroupRecord>, g: nat, p: nat)
    requires g < |records| && p < |records[g].ipPermissions|
    ensures exists k :: 0 <= k < |RevokeRequests(records)| && RevokeKeeps(records[g], p, RevokeRequests(records)[k])
  {
    var revokes := RevokeRequests(records);
    RevokeRequestsFollowGroups(records);
    var idx :| RevokePlan(records, |records|, revokes, idx);
    assert g in idx;
    var k :| 0 <= k < |idx| && idx[k] == g;
    assert revokes[k] == Stripped(records[g]);
    StrippedKeeps(records[g], p);
  }

  /** The stripped record is a revoke request that keeps permission `p`'s IPv4 ranges. */
  lemma StrippedKeeps(r: GroupRecord, p: nat)
    requires p < |r.ipPermissions|
    ensures RevokeKeeps(r, p, Stripped(r))
  {
    StrippedSpec(r);
    if p > 0 {
      assert Stripped(r).ipPermissions[p] == Stripped(r).ipPermissions[1..][p - 1];
    }
  }

  /** Every revoke request of the first `n` groups is the stripped record of one of them with ingress rules. */
  lemma {:induction false} RevokesOfPrefixFromGroups(records: seq<GroupRecord>, n: nat)
    requires n <= |records|
    ensures forall q :: q in RevokesOfPrefix(records, n) ==>
      exists i :: 0 <= i < n && HasIngressRules(records[i]) && q == Stripped(records[i])
  {
    if n > 0 {
      RevokesOfPrefixFromGroups(records, n - 1);
    }
  }

  /** Every revoke request is the stripped record of a described group with ingress rules. */
  lemma RevokeRequestsFromGroups(records: seq<GroupRecord>)
    ensures forall q :: q in RevokeRequests(records) ==>
      exists i :: 0 <= i < |records| && HasIngressRules(records[i]) && q == Stripped(records[i])
  {
    RevokesOfPrefixFromGroups(records, |records|);
  }

  /** No revoke is sent for a prefix of groups none of which has an ingress rule. */
  lemma {:induction false} NoRevokeWithoutRules(records: seq<GroupRecord>, n: nat)
    requires n <= |records|
    requires forall i :: 0 <= i < n ==> !HasIngressRules(records[i])
    ensures RevokesOfPrefix(records, n) == []
  {
    if n > 0 {
      NoRevokeWithoutRules(records, n - 1);
    }
  }

  /** A described security group, as the object the purge deletes keys from. */
  class SecurityGroup {
    var groupId: string
    var ipPermissions: seq<Permission>
    var ownerId: Option<string>
    var description: Option<string>
    var groupName: Option<string>
    var ipPermissionsEgress: Option<seq<Permission>>
    var vpcId: Option<string>
    var tags: Option<seq<Tag>>

    /** The object's current keys and values. */
    function Value(): GroupRecord
      reads this
    {
      GroupRecord(groupId, ipPermissions, ownerId, description, groupName,
                  ipPermissionsEgress, vpcId, tags)
    }

    constructor (r: GroupRecord)
      ensures Value() == r
    {
      groupId, ipPermissions := r.groupId, r.ipPermissions;
      ownerId, description, groupName := r.ownerId, r.description, r.groupName;
      ipPermissionsEgress, vpcId, tags := r.ipPermissionsEgress, r.vpcId, r.tags;
    }

    /** The nine `delete` statements, in the order the purge runs them. */
    method StripForRevoke()
      requires |ipPermissions| > 0
      modifies this
      ensures Value() == Stripped(old(Value()))
    {
      ownerId := None;
      description := None;
      ipPermissionsEgress := None;
      vpcId := None;
      tags := None;
      ipPermissions := ipPermissions[0 := ipPermissions[0].(userIdGroupPairs := None)];
      groupName := None;
      ipPermissions := ipPermissions[0 := ipPermissions[0].(prefixListIds := None)];
      ipPermissions := ipPermissions[0 := ipPermissions[0].(ipv6Ranges := None)];
    }
  }

  /**
   * The state of the described objects before visit `i` of the purge loop:
   * the first `i` are purged, the others are untouched or, when the same
   * object is described twice, already purged.
   */
  ghost predicate PurgedUpTo(groups: seq<SecurityGroup>, before: seq<GroupRecord>, i: nat)
    reads groups
  {
    && i <= |groups| == |before|
    && (forall j, k :: 0 <= j < |groups| && 0 <= k < |groups| && groups[j] == groups[k] ==>
          before[j] == before[k])
    && (forall k :: 0 <= k < i ==> groups[k].Value() == PurgeOutcome(before[k]))
    && (forall k :: i <= k < |groups| ==>
          groups[k].Value() == before[k] || groups[k].Value() == PurgeOutcome(before[k]))
  }

  /**
   * Visit `i` of the purge loop. When the group has an ingress permission its
   * keys are deleted and the object itself is the revoke request; otherwise
   * nothing is sent. A second visit of the same object changes nothing.
   */
  method PurgeGroup(groups: seq<SecurityGroup>, i: nat, ghost before: seq<GroupRecord>)
    returns (revoke: Option<GroupRecord>)
    requires i < |groups| && PurgedUpTo(groups, before, i)
    modifies groups[i]
    ensures revoke == if HasIngressRules(before[i]) then Some(Stripped(before[i])) else None
    ensures PurgedUpTo(groups, before, i + 1)
  {
    var params := groups[i];
    PurgeOutcomeTwice(before[i]);
    if |params.ipPermissions| > 0 {
      params.StripForRevoke();
      revoke := Some(params.Value());
    } else {
      revoke := None;
    }
  }

  /**
   * The loop state before visit `i`: the ids and revoke requests of the first
   * `i` groups have been collected and those groups are purged.
   */
  ghost predicate PurgeLoop(groups: seq<SecurityGroup>, before: seq<GroupRecord>, i: nat,
                            groupIds: seq<string>, revokes: seq<GroupRecord>)
    reads groups
  {
    var idsKept := |groupIds| == i <= |before| && forall k :: 0 <= k < i ==> groupIds[k] == before[k].groupId;
    var revokesSent := i <= |before| && revokes == RevokesOfPrefix(before, i);
    PurgedUpTo(groups, before, i) && idsKept && revokesSent
  }

  /** One iteration of the purge loop: keep the group's id and send its revoke, if any. */
  method VisitGroup(groups: seq<SecurityGroup>, i: nat, ghost before: seq<GroupRecord>,
                    groupIds: seq<string>, revokes: seq<GroupRecord>)
    returns (groupIds': seq<string>, revokes': seq<GroupRecord>)
    requires i < |groups| && PurgeLoop(groups, before, i, groupIds, revokes)
    modifies groups[i]
    ensures PurgeLoop(groups, before, i + 1, groupIds', revokes')
  {
    PurgeOutcomeTwice(before[i]);
    groupIds' := groupIds + [groups[i].groupId];
    var revoke := PurgeGroup(groups, i, before);
    revokes' := if revoke.Some? then revokes + [revoke.value] else revokes;
    assert revokes' == RevokesOfPrefix(before, i + 1);
  }

  /** A purge loop that has visited every group has sent `RevokeRequests` and kept `GroupIds`. */
  lemma PurgeLoopDone(groups: seq<SecurityGroup>, before: seq<GroupRecord>,
                      groupIds: seq<string>, revokes: seq<GroupRecord>)
    requires PurgeLoop(groups, before, |groups|, groupIds, revokes)
    ensures groupIds == GroupIds(before)
    ensures revokes == RevokeRequests(before)
    ensures forall k :: 0 <= k < |groups| ==> groups[k].Value() == PurgeOutcome(before[k])
  {
    GroupIdsUnique(before, groupIds);
  }

  function Values(groups: seq<SecurityGroup>): (rs: seq<GroupRecord>)
    reads groups
    ensures |rs| == |groups|
    ensures forall i :: 0 <= i < |groups| ==> rs[i] == groups[i].Value()
  {
    seq(|groups|, i reads groups requires 0 <= i < |groups| => groups[i].Value())
  }

  /**
   * `deleteExistingRules` over the described groups: returns every group id in
   * order and the revoke requests it sent, and leaves every described object
   * stripped exactly when it had an ingress rule.
   */
  method DeleteExistingRules(groups: seq<SecurityGroup>) returns (groupIds: seq<string>, revokes: seq<GroupRecord>)
    modifies groups
    ensures groupIds == GroupIds(old(Values(groups)))
    ensures revokes == RevokeRequests(old(Values(groups)))
    ensures forall k :: 0 <= k < |groups| ==> groups[k].Value() == PurgeOutcome(old(groups[k].Value()))
  {
    ghost var before := Values(groups);
    groupIds, revokes := [], [];
    for i := 0 to |groups|
      invariant PurgeLoop(groups, before, i, groupIds, revokes)
    {
      groupIds, revokes := VisitGroup(groups, i, before, groupIds, revokes);
    }
    PurgeLoopDone(groups, before, groupIds, revokes);
  }
}
