/**
 * `getWhitelistIps` and the exported `handler`: purge the tagged groups, fetch
 * the site's document, then authorize the new rule set on every purged group.
 *
 * The EC2 and HTTP calls are oracles: `described` is what
 * `describeSecurityGroups` resolved to (`None` when it rejected), and `okta`
 * and `github` are the parsed bodies of the two pinned URLs (`None` when the
 * fetch or the JSON parse rejected). Revoke and authorize outcomes are only
 * logged, so a run is the sequence of calls it issues.
 */
module Handler {
  import opened Records
  import opened Dedupe
  import opened Normalize
  import opened Purge
  import opened Apply

  /**
   * `getWhitelistIps(event)`: `None` when the fetch rejects. A missing `site`
   * key gives the string "Site not yet Supported!"; a `site` that is neither
   * `okta` nor `github` falls through the inner `if` and gives `undefined`.
   */
  function GetWhitelistIps(event: Event, okta: Option<OktaDoc>, github: Option<GithubDoc>): Option<WhitelistData>
  {
    if event.site.Some? then
      var site := event.site.value;
      if site == "okta" || site == "github" then
        if site == "okta" then
          (if okta.Some? then Some(OktaData(okta.value)) else None)
        else
          (if github.Some? then Some(GithubData(github.value)) else None)
      else
        Some(Undefined)
    else
      Some(NotSupported)
  }

  /**
   * The outcome of `getWhitelistIps` for each kind of event: the string
   * exactly when `site` is missing, `undefined` exactly when it is neither
   * provider, the provider's document exactly when that provider was asked
   * for and fetched, and a rejection exactly when the fetch failed.
   */
  lemma GetWhitelistIpsCases(event: Event, okta: Option<OktaDoc>, github: Option<GithubDoc>)
    ensures var r := GetWhitelistIps(event, okta, github);
      && (r == Some(NotSupported) <==> event.site.None?)
      && (r == Some(Undefined) <==>
            event.site.Some? && event.site.value != "okta" && event.site.value != "github")
      && (r.None? <==>
            (event.site == Some("okta") && okta.None?) || (event.site == Some("github") && github.None?))
      && (r.Some? && r.value.OktaData? <==> event.site == Some("okta") && okta.Some?)
      && (r.Some? && r.value.OktaData? ==> okta == Some(r.value.okta))
      && (r.Some? && r.value.GithubData? <==> event.site == Some("github") && github.Some?)
      && (r.Some? && r.value.GithubData? ==> github == Some(r.value.github))
  {
  }

  function AsRevokes(requests: seq<GroupRecord>): seq<Action>
  {
    seq(|requests|, i requires 0 <= i < |requests| => Revoke(requests[i]))
  }

  function AsAuthorizes(requests: seq<GroupRecord>): seq<Action>
  {
    seq(|requests|, i requires 0 <= i < |requests| => Authorize(requests[i]))
  }

  /**
   * The calls of a run whose purge sent `revokes` and returned `ids`, and
   * whose fetch gave `fetched` (`None` when the promise chain rejected there).
   */
  function Run(revokes: seq<GroupRecord>, ids: seq<string>, fetched: Option<WhitelistData>): seq<Action>
  {
    AsRevokes(revokes) + if fetched.Some? then AsAuthorizes(AuthorizeRequests(fetched.value, ids)) else []
  }

  /** The EC2 calls one run of the handler issues, in order. */
  function Trace(event: Event, described: Option<seq<GroupRecord>>,
                 okta: Option<OktaDoc>, github: Option<GithubDoc>): seq<Action>
  {
    match described
    case None => []
    case Some(records) => Run(RevokeRequests(records), GroupIds(records), GetWhitelistIps(event, okta, github))
  }

  function Snapshot(described: Option<seq<SecurityGroup>>): Option<seq<GroupRecord>>
    reads if described.Some? then described.value else []
  {
    match described
    case None => None
    case Some(groups) => Some(Values(groups))
  }

  /** `handler(event)`: purge, then fetch, then apply, as one sequential run. */
  method Handle(event: Event, described: Option<seq<SecurityGroup>>,
                okta: Option<OktaDoc>, github: Option<GithubDoc>) returns (trace: seq<Action>)
    modifies if described.Some? then described.value else []
    ensures trace == Trace(event, old(Snapshot(described)), okta, github)
    ensures described.Some? ==> forall k :: 0 <= k < |described.value| ==>
      described.value[k].Value() == PurgeOutcome(old(described.value[k].Value()))
  {
    match described {
      case None =>
        trace := [];
      case Some(groups) =>
        var sgs, revokes := DeleteExistingRules(groups);
        trace := AsRevokes(revokes);
        var ips := GetWhitelistIps(event, okta, github);
        if ips.Some? {
          var requests, _ := UpdateSgRules(ips.value, sgs);
          trace := trace + AsAuthorizes(requests);
        }
    }
  }

  // ------------------------------------------------ properties of one run

  /** A run's revokes are the purge's requests, and all of them precede every authorize. */
  lemma RunRevokesFirst(revokes: seq<GroupRecord>, ids: seq<string>, fetched: Option<WhitelistData>)
    ensures var t := Run(revokes, ids, fetched);
      forall i, j :: 0 <= i < j < |t| && t[i].Authorize? ==> t[j].Authorize?
    ensures forall a :: a in Run(revokes, ids, fetched) && a.Revoke? ==> a.params in revokes
  {
    var t := Run(revokes, ids, fetched);
    var tail := if fetched.Some? then AsAuthorizes(AuthorizeRequests(fetched.value, ids)) else [];
    assert t == AsRevokes(revokes) + tail;
    assert forall x :: x in tail ==> x.Authorize?;
    forall a | a in t && a.Revoke?
      ensures a.params in revokes
    {
      assert a !in tail;
      var k :| 0 <= k < |revokes| && AsRevokes(revokes)[k] == a;
      assert a.params == revokes[k];
    }
  }

  /** A run's authorizes are the apply step's requests. */
  lemma RunAuthorizesFromApply(revokes: seq<GroupRecord>, ids: seq<string>, fetched: Option<WhitelistData>)
    ensures forall a :: a in Run(revokes, ids, fetched) && a.Authorize? ==>
      fetched.Some? && a.params in AuthorizeRequests(fetched.value, ids)
  {
    var t := Run(revokes, ids, fetched);
    assert forall x :: x in AsRevokes(revokes) ==> x.Revoke?;
    if fetched.Some? {
      var requests := AuthorizeRequests(fetched.value, ids);
      assert t == AsRevokes(revokes) + AsAuthorizes(requests);
      forall a | a in t && a.Authorize?
        ensures a.params in requests
      {
        assert a !in AsRevokes(revokes);
        var k :| 0 <= k < |requests| && AsAuthorizes(requests)[k] == a;
        assert a.params == requests[k];
      }
    } else {
      assert t == AsRevokes(revokes);
    }
  }

  /** With a rule set in hand, a run ends with one authorize per group id, in order. */
  lemma RunAuthorizesEveryGroup(revokes: seq<GroupRecord>, ids: seq<string>, data: WhitelistData)
    requires RuleSet(data).Some?
    ensures |Run(revokes, ids, Some(data))| == |revokes| + |ids|
    ensures forall i :: 0 <= i < |ids| ==>
      Run(revokes, ids, Some(data))[|revokes| + i] == Authorize(AuthorizeParams(ids[i], RuleSet(data).value))
  {
    var authorizes := AsAuthorizes(AuthorizeRequests(data, ids));
    var t := Run(revokes, ids, Some(data));
    assert t == AsRevokes(revokes) + authorizes;
    forall i | 0 <= i < |ids|
      ensures t[|revokes| + i] == Authorize(AuthorizeParams(ids[i], RuleSet(data).value))
    {
      assert t[|revokes| + i] == authorizes[i];
    }
  }

  // ----------------------------------------------- properties of the handler

  /** Every revoke of a run is issued before its first authorize. */
  lemma PurgeBeforeApply(event: Event, described: Option<seq<GroupRecord>>,
                         okta: Option<OktaDoc>, github: Option<GithubDoc>)
    ensures var t := Trace(event, described, okta, github);
      forall i, j :: 0 <= i < j < |t| && t[i].Authorize? ==> t[j].Authorize?
  {
    if described.Some? {
      var records := described.value;
      RunRevokesFirst(RevokeRequests(records), GroupIds(records), GetWhitelistIps(event, okta, github));
    }
  }

  /**
   * With no `site` key or an unknown site, a run authorizes nothing, yet it
   * has already sent the purge's revokes: a group whose revoke succeeded is
   * left without the automated rules.
   */
  lemma UnsupportedSiteOnlyPurges(event: Event, records: seq<GroupRecord>,
                                  okta: Option<OktaDoc>, github: Option<GithubDoc>)
    requires event.site.None? || (event.site.value != "okta" && event.site.value != "github")
    ensures Trace(event, Some(records), okta, github) == AsRevokes(RevokeRequests(records))
    ensures forall a :: a in Trace(event, Some(records), okta, github) ==> a.Revoke?
  {
    var data := GetWhitelistIps(event, okta, github);
    assert data == Some(NotSupported) || data == Some(Undefined);
    assert AuthorizeRequests(data.value, GroupIds(records)) == [];
    assert AsAuthorizes([]) == [];
    assert Trace(event, Some(records), okta, github) == AsRevokes(RevokeRequests(records)) + [];
  }

  /** When the describe call rejects, a run issues no call at all. */
  lemma FailedDescribeDoesNothing(event: Event, okta: Option<OktaDoc>, github: Option<GithubDoc>)
    ensures Trace(event, None, okta, github) == []
  {
  }

  /** A run whose fetch yields a rule set ends with one authorize per described group, in order. */
  lemma TraceAuthorizesEveryGroup(event: Event, records: seq<GroupRecord>, okta: Option<OktaDoc>,
                                  github: Option<GithubDoc>, data: WhitelistData)
    requires GetWhitelistIps(event, okta, github) == Some(data) && RuleSet(data).Some?
    ensures |Trace(event, Some(records), okta, github)| == |RevokeRequests(records)| + |records|
    ensures forall i :: 0 <= i < |records| ==>
      Trace(event, Some(records), okta, github)[|RevokeRequests(records)| + i]
        == Authorize(AuthorizeParams(records[i].groupId, RuleSet(data).value))
  {
    RunAuthorizesEveryGroup(RevokeRequests(records), GroupIds(records), data);
  }

  /**
   * For site `okta` with its document fetched, the run ends with one authorize
   * per described group, in the groups' order, each carrying the Okta rule set.
   */
  lemma OktaRunAuthorizesEveryGroup(event: Event, records: seq<GroupRecord>, doc: OktaDoc,
                                    github: Option<GithubDoc>)
    requires event.site == Some("okta")
    ensures |Trace(event, Some(records), Some(doc), github)| == |RevokeRequests(records)| + |records|
    ensures forall i :: 0 <= i < |records| ==>
      Trace(event, Some(records), Some(doc), github)[|RevokeRequests(records)| + i]
        == Authorize(AuthorizeParams(records[i].groupId, OktaRange(doc)))
  {
    assert GetWhitelistIps(event, Some(doc), github) == Some(OktaData(doc));
    TraceAuthorizesEveryGroup(event, records, Some(doc), github, OktaData(doc));
  }

  /**
   * For site `github` with its document fetched, the run ends with one
   * authorize per described group, in the groups' order, each carrying the
   * GitHub rule set.
   */
  lemma GithubRunAuthorizesEveryGroup(event: Event, records: seq<GroupRecord>, okta: Option<OktaDoc>,
                                      meta: GithubDoc)
    requires event.site == Some("github")
    ensures |Trace(event, Some(records), okta, Some(meta))| == |RevokeRequests(records)| + |records|
    ensures forall i :: 0 <= i < |records| ==>
      Trace(event, Some(records), okta, Some(meta))[|RevokeRequests(records)| + i]
        == Authorize(AuthorizeParams(records[i].groupId, GithubRange(meta)))
  {
    assert GetWhitelistIps(event, okta, Some(meta)) == Some(GithubData(meta));
    TraceAuthorizesEveryGroup(event, records, okta, Some(meta), GithubData(meta));
  }

  /**
   * The reply is read as JSON whatever its HTTP status. An error body such as
   * `{"message": …, "documentation_url": …}` has none of the three read
   * categories, so it flows on as the document: after the revokes every
   * group is sent an authorize with an empty rule set.
   */
  lemma GithubErrorReplyAuthorizesNothing(event: Event, records: seq<GroupRecord>, okta: Option<OktaDoc>)
    requires event.site == Some("github")
    ensures var t := Trace(event, Some(records), okta, Some([("message", []), ("documentation_url", [])]));
      && |t| == |RevokeRequests(records)| + |records|
      && t[..|RevokeRequests(records)|] == AsRevokes(RevokeRequests(records))
      && forall i :: 0 <= i < |records| ==>
           t[|RevokeRequests(records)| + i] == Authorize(AuthorizeParams(records[i].groupId, []))
  {
    var error: GithubDoc := [("message", []), ("documentation_url", [])];
    var docs: GithubDoc := [("documentation_url", [])];
    GithubIgnoresOtherCategories([], "message", [], docs);
    assert [] + [("message", [])] + docs == error;
    GithubIgnoresOtherCategories([], "documentation_url", [], []);
    assert [] + [("documentation_url", [])] + [] == docs;
    assert GithubRange(error) == [] by {
      assert GithubCidrs([]) == [];
    }
    GithubRunAuthorizesEveryGroup(event, records, okta, error);
    var revokes := AsRevokes(RevokeRequests(records));
    var t := Trace(event, Some(records), okta, Some(error));
    assert t == revokes + AsAuthorizes(AuthorizeRequests(GithubData(error), GroupIds(records)));
    assert t[..|revokes|] == revokes;
  }

  /**
   * Every IPv4 range of every permission of a described group is revoked,
   * whatever its `Description` and whether or not the fetch succeeds: rules
   * added by hand are purged along with the automated ones. In the first
   * permission the IPv6, prefix-list and group-pair rules are left out of
   * the request, so they are never revoked.
   */
  lemma DescribedRangesAreRevoked(event: Event, records: seq<GroupRecord>, g: nat, p: nat,
                                  okta: Option<OktaDoc>, github: Option<GithubDoc>)
    requires g < |records| && p < |records[g].ipPermissions|
    ensures exists a ::
      && a in Trace(event, Some(records), okta, github)
      && a.Revoke?
      && a.params.groupId == records[g].groupId
      && |a.params.ipPermissions| == |records[g].ipPermissions|
      && a.params.ipPermissions[p].ipRanges == records[g].ipPermissions[p].ipRanges
      && a.params.ipPermissions[0].ipv6Ranges.None?
      && a.params.ipPermissions[0].prefixListIds.None?
      && a.params.ipPermissions[0].userIdGroupPairs.None?
  {
    var revokes, ids := RevokeRequests(records), GroupIds(records);
    var t := Run(revokes, ids, GetWhitelistIps(event, okta, github));
    assert Trace(event, Some(records), okta, github) == t;
    RevokeKeepsRanges(records, g, p);
    var k :| 0 <= k < |revokes| && RevokeKeeps(records[g], p, revokes[k]);
    assert t[k] == Revoke(revokes[k]);
    assert t[k] in t;
  }

  /**
   * A group with no ingress permission gets no revoke but still gets its
   * authorize, when its id is not shared with another described group.
   */
  lemma GroupWithoutRulesIsOnlyAuthorized(event: Event, records: seq<GroupRecord>, g: nat,
                                          okta: Option<OktaDoc>, github: Option<GithubDoc>)
    requires (event.site == Some("okta") && okta.Some?) || (event.site == Some("github") && github.Some?)
    requires g < |records| && !HasIngressRules(records[g])
    requires forall i :: 0 <= i < |records| && i != g ==> records[i].groupId != records[g].groupId
    ensures forall a :: a in Trace(event, Some(records), okta, github) && a.Revoke? ==>
      a.params.groupId != records[g].groupId
    ensures exists a ::
      && a in Trace(event, Some(records), okta, github)
      && a.Authorize?
      && a.params.groupId == records[g].groupId
  {
    var revokes, ids := RevokeRequests(records), GroupIds(records);
    var data := GetWhitelistIps(event, okta, github).value;
    var t := Run(revokes, ids, Some(data));
    assert Trace(event, Some(records), okta, github) == t;
    RunRevokesFirst(revokes, ids, Some(data));
    RevokeRequestsFromGroups(records);
    forall a | a in t && a.Revoke?
      ensures a.params.groupId != records[g].groupId
    {
      var i :| 0 <= i < |records| && HasIngressRules(records[i]) && a.params == Stripped(records[i]);
      assert a.params.groupId == records[i].groupId;
    }
    assert RuleSet(data).Some?;
    RunAuthorizesEveryGroup(revokes, ids, data);
    assert t[|revokes| + g].params.groupId == records[g].groupId;
    assert t[|revokes| + g] in t;
  }

  /**
   * Every rule a run installs carries the site's automated marker, sits in a
   * single TCP 443 block, and an Okta block holds exactly the first
   * min(50, d) of the d distinct CIDRs of the document.
   */
  lemma InstalledRulesAreMarked(event: Event, described: Option<seq<GroupRecord>>,
                                okta: Option<OktaDoc>, github: Option<GithubDoc>)
    ensures forall a :: a in Trace(event, described, okta, github) && a.Authorize? ==>
      && |a.params.ipPermissions| == 1
      && a.params.ipPermissions[0].ipProtocol == "tcp"
      && a.params.ipPermissions[0].fromPort == Some(HTTPS_PORT)
      && a.params.ipPermissions[0].toPort == Some(HTTPS_PORT)
      && NoDuplicates(a.params.ipPermissions[0].ipRanges)
      && (event.site == Some("okta") ==>
            && |a.params.ipPermissions[0].ipRanges| == Min(OKTA_RULE_LIMIT, |Elems(OktaCidrs(okta.value))|)
            && forall e :: e in a.params.ipPermissions[0].ipRanges ==> e.description == OKTA_MARKER)
      && (event.site == Some("github") ==>
            forall e :: e in a.params.ipPermissions[0].ipRanges ==> e.description == GITHUB_MARKER)
  {
    if described.Some? {
      var records := described.value;
      var fetched := GetWhitelistIps(event, okta, github);
      RunAuthorizesFromApply(RevokeRequests(records), GroupIds(records), fetched);
      if fetched.Some? {
        AuthorizeRequestsShape(fetched.value, GroupIds(records));
        if event.site == Some("okta") {
          OktaRangeSpec(okta.value);
        }
      }
    }
  }
}
