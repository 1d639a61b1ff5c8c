/**
 * The values the whitelist Lambda handles: the rule entries it builds, the
 * security-group descriptors the EC2 API hands back (and takes again as request
 * parameters), the parsed provider documents and the site-dispatch result.
 *
 * A JavaScript object key that the code can `delete` is an `Option` field here:
 * `None` means the key is absent.
 */
module Records {

  datatype Option<+T> = None | Some(value: T)

  /** The automated marker written on every Okta rule. */
  const OKTA_MARKER: string := "**AUTOMATED ** OKTA IP for Auth"
  /** The automated marker written on every GitHub rule. */
  const GITHUB_MARKER: string := "**AUTOMATED ** GITHUB IP for Auth"
  /** The only port the rules open, as both FromPort and ToPort. */
  const HTTPS_PORT: int := 443
  /** Okta rule sets are cut to this many entries. */
  const OKTA_RULE_LIMIT: nat := 50

  /** One `{CidrIp, Description}` entry of an `IpRanges` list. */
  datatype IpRange = IpRange(cidrIp: string, description: string)

  datatype Tag = Tag(key: string, value: string)

  /** An entry of `IpPermissions`; the last three keys are the ones the purge deletes. */
  datatype Permission = Permission(
    fromPort: Option<int>,
    ipProtocol: string,
    ipRanges: seq<IpRange>,
    toPort: Option<int>,
    ipv6Ranges: Option<seq<string>>,
    prefixListIds: Option<seq<string>>,
    userIdGroupPairs: Option<seq<string>>)

  /**
   * A security-group descriptor: what `describeSecurityGroups` returns for one
   * group, and also the parameter object of a revoke or authorize call (which
   * carry only `GroupId` and `IpPermissions`).
   */
  datatype GroupRecord = GroupRecord(
    groupId: string,
    ipPermissions: seq<Permission>,
    ownerId: Option<string>,
    description: Option<string>,
    groupName: Option<string>,
    ipPermissionsEgress: Option<seq<Permission>>,
    vpcId: Option<string>,
    tags: Option<seq<Tag>>)

  /** True when a parameter object carries no key besides `GroupId` and `IpPermissions`. */
  predicate OnlyIdAndPermissions(r: GroupRecord)
  {
    && r.ownerId.None? && r.description.None? && r.groupName.None?
    && r.ipPermissionsEgress.None? && r.vpcId.None? && r.tags.None?
  }

  /** The Okta document: cell name -> (key -> list of CIDRs), in key order. */
  type OktaDoc = seq<(string, seq<(string, seq<string>)>)>

  /** The GitHub meta document: category name -> list of CIDRs, in key order. */
  type GithubDoc = seq<(string, seq<string>)>

  /** The invocation event; `site` is `None` when the event has no `site` key. */
  datatype Event = Event(site: Option<string>)

  /**
   * What `getWhitelistIps` resolves to: `{site, ips}` for a recognised site,
   * the string "Site not yet Supported!", or `undefined`.
   */
  datatype WhitelistData =
    | OktaData(okta: OktaDoc)
    | GithubData(github: GithubDoc)
    | NotSupported
    | Undefined

  /** One EC2 call issued by a run of the handler, with its parameter object. */
  datatype Action = Revoke(params: GroupRecord) | Authorize(params: GroupRecord)
}
