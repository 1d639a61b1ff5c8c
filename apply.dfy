/**
 * `updateSgRules`: for each group id, switch on `data['site']`, build the
 * provider's rule set and one authorize request carrying it in a single
 * TCP 443 permission block.
 */
module Apply {
  import opened Records
  import opened Dedupe
  import opened Normalize

  /** The one permission block of an authorize request. */
  function IngressPermission(ranges: seq<IpRange>): Permission
  {
    Permission(Some(HTTPS_PORT), "tcp", ranges, Some(HTTPS_PORT), None, None, None)
  }

  /** `{GroupId, IpPermissions: [...]}` as built for one group. */
  function AuthorizeParams(groupId: string, ranges: seq<IpRange>): GroupRecord
  {
    GroupRecord(groupId, [IngressPermission(ranges)], None, None, None, None, None, None)
  }

  /** The rule set a case of the switch computes, or `None` when no case matches. */
  function RuleSet(data: WhitelistData): Option<seq<IpRange>>
  {
    match data
    case OktaData(doc) => Some(OktaRange(doc))
    case GithubData(meta) => Some(GithubRange(meta))
    case NotSupported => None
    case Undefined => None
  }

  /** The authorize requests `updateSgRules` sends for `sgs`, in order. */
  function AuthorizeRequests(data: WhitelistData, sgs: seq<string>): seq<GroupRecord>
  {
    match RuleSet(data)
    case None => []
    case Some(ranges) => seq(|sgs|, i requires 0 <= i < |sgs| => AuthorizeParams(sgs[i], ranges))
  }

  /**
   * Every request `updateSgRules` builds has one TCP permission block from
   * port 443 to port 443 and no key besides `GroupId` and `IpPermissions`;
   * its entries are distinct and carry the provider's marker; an Okta block
   * holds at most 50 entries.
   */
  lemma AuthorizeRequestsShape(data: WhitelistData, sgs: seq<string>)
    ensures forall q :: q in AuthorizeRequests(data, sgs) ==>
      && OnlyIdAndPermissions(q)
      && |q.ipPermissions| == 1
      && q.ipPermissions[0].ipProtocol == "tcp"
      && q.ipPermissions[0].fromPort == Some(HTTPS_PORT)
      && q.ipPermissions[0].toPort == Some(HTTPS_PORT)
      && NoDuplicates(q.ipPermissions[0].ipRanges)
      && (data.OktaData? ==> |q.ipPermissions[0].ipRanges| <= OKTA_RULE_LIMIT)
      && (data.OktaData? ==> forall e :: e in q.ipPermissions[0].ipRanges ==> e.description == OKTA_MARKER)
      && (data.GithubData? ==> forall e :: e in q.ipPermissions[0].ipRanges ==> e.description == GITHUB_MARKER)
  {
    match data
    case OktaData(doc) => OktaRangeSpec(doc);
    case GithubData(meta) => GithubRangeSpec(meta);
    case NotSupported =>
    case Undefined =>
  }

  /**
   * The body of the loop of `updateSgRules` for one group id: the switch on
   * `data['site']`. A recognised site yields the group's authorize request;
   * the unsupported string matches no case; `undefined` throws.
   */
  method AuthorizeGroup(data: WhitelistData, sg: string) returns (request: Option<GroupRecord>, thrown: bool)
    ensures request.Some? <==> RuleSet(data).Some?
    ensures request.Some? ==> request.value == AuthorizeParams(sg, RuleSet(data).value)
    ensures thrown <==> data.Undefined?
  {
    request, thrown := None, false;
    match data {
      case OktaData(ips) =>
        var oktaIps := CollectOktaIps(ips);
        var oktaRange := DedupeIps(oktaIps);
        var oktaLimitedRange := oktaRange[..Min(OKTA_RULE_LIMIT, |oktaRange|)];
        request := Some(AuthorizeParams(sg, oktaLimitedRange));
      case GithubData(ips) =>
        var githubIps := CollectGithubIps(ips);
        var githubUnique := DedupeIps(githubIps);
        request := Some(AuthorizeParams(sg, githubUnique));
      case NotSupported =>
        // The string has no `site` property: no case of the switch matches.
      case Undefined =>
        thrown := true;
    }
  }

  /**
   * `updateSgRules(data, sgs)`: one request per group for a recognised site,
   * none otherwise. `thrown` reports the TypeError raised by reading
   * `data['site']` when `data` is `undefined`, which ends the loop at its
   * first group.
   */
  method UpdateSgRules(data: WhitelistData, sgs: seq<string>) returns (requests: seq<GroupRecord>, thrown: bool)
    ensures requests == AuthorizeRequests(data, sgs)
    ensures RuleSet(data).Some? ==>
      && |requests| == |sgs|
      && forall i :: 0 <= i < |sgs| ==>
           requests[i].groupId == sgs[i] && requests[i].ipPermissions == [IngressPermission(RuleSet(data).value)]
    ensures RuleSet(data).None? ==> requests == []
    ensures thrown <==> data.Undefined? && |sgs| > 0
  {
    requests, thrown := [], false;
    for group := 0 to |sgs|
      invariant RuleSet(data).Some? ==>
        |requests| == group && forall k :: 0 <= k < group ==> requests[k] == AuthorizeParams(sgs[k], RuleSet(data).value)
      invariant RuleSet(data).None? ==> requests == []
      invariant !thrown
      invariant data.Undefined? ==> group == 0
    {
      var request, failed := AuthorizeGroup(data, sgs[group]);
      if failed {
        thrown := true;
        return;
      }
      if request.Some? {
        requests := requests + [request.value];
      }
    }
  }
}
