# Security-group whitelist Lambda — Dafny model

This project models the reconciliation core of a Lambda function. The function
keeps AWS EC2 security groups tagged `t_whitelist=<site>` open on TCP 443 to
the published address ranges of a provider: Okta or GitHub. One run does three
things:

1. **Purge** (`deleteExistingRules`). It describes the tagged groups. Every
   group that has at least one ingress permission gets its descriptive keys
   deleted in place, together with the IPv6, prefix-list and group-pair keys
   of its first permission. The described object is then sent back as a
   revoke request. The run keeps every group id.
2. **Fetch** (`getWhitelistIps`). For site `okta` or `github` it yields the
   provider's parsed JSON document. A missing `site` key yields the string
   "Site not yet Supported!". Any other site yields `undefined`.
3. **Apply** (`updateSgRules`). For each group id it flattens the document:
   - Okta: three `for...in` levels.
   - GitHub: the `git`, `hooks` and `pages` categories only.

   It then tags every CIDR with the provider's automated description and
   removes repeated entries (`dedupeIPs`, first occurrence wins). Okta is cut
   to its first 50 entries. One authorize request goes out per group, with a
   single TCP 443→443 permission block.

The modules follow that structure:

| module | file | role |
|---|---|---|
| `Records` | `records.dfy` | request/response records, documents, provider constants, the run's actions |
| `Dedupe` | `dedup.dfy` | `dedupeIPs` as a loop over a set of seen keys, proved against the specification `Dedup` |
| `Normalize` | `normalize.dfy` | the Okta and GitHub flattening loops and the rule set each provider yields |
| `Purge` | `purge.dfy` | the described group as a class whose keys are deleted in place, and the purge loop |
| `Apply` | `apply.dfy` | the per-group switch and the authorize requests |
| `Handler` | `handler.dfy` | `getWhitelistIps` and the whole run, as the sequence of EC2 calls it issues |

JSON objects are ordered association lists, in the order `for...in` visits
their keys. A key that `delete` can remove is an `Option` field, where `None`
means the key is absent. `dedupeIPs` keys each entry by `JSON.stringify`. For
the `{CidrIp, Description}` objects built here, that key is injective, so the
model compares entries structurally and keeps the table of seen keys as a
`set`.

The EC2 and HTTP calls are inputs to the model:
- `described` is what `describeSecurityGroups` resolved to, or `None` when it
  rejected.
- `okta` and `github` are the parsed bodies, or `None` when the fetch or the
  JSON parse rejected. `fetch` rejects only on a network error, and
  `res.json()` only on a body that is not JSON.

The revoke and authorize calls are only logged, whether they succeed or fail.
A run is therefore the list of `Revoke` and `Authorize` requests it sends, in
order.

Several behaviours of the code are easy to misread:
- A revoke request carries the group's whole `IpPermissions` list. Only the
  first entry loses its `UserIdGroupPairs`, `PrefixListIds` and `Ipv6Ranges`
  keys. The first permission's group-pair, prefix-list and IPv6 rules are
  therefore never revoked and stay in place.
- Every IPv4 range of every permission is revoked, whatever its
  `Description`. Rules added by hand are revoked along with the automated
  ones.
- A revoke that fails is only logged, so that group keeps its rules.
- Only a missing `site` key produces "Site not yet Supported!". An unrecognised
  site value makes `getWhitelistIps` resolve to `undefined`. `updateSgRules`
  then raises a TypeError on its first group, because it reads
  `data['site']`. `UpdateSgRules` reports this with `thrown`. Either way no
  authorize request is sent, but the purge has already run.
- A network error or a reply that is not JSON rejects the promise chain.
  `updateSgRules` is then never called and no authorize request follows the
  revokes.
- The HTTP status is never checked. An error reply with a JSON body flows on
  as the document. GitHub's error body has only `message` and
  `documentation_url` keys and none of the three read categories, so every
  group is sent an authorize with an empty rule set after its revokes.

## Model

| member | source | states |
|---|---|---|
| Dedupe.DedupeIps | _app/index.js:170-177 | the filter loop returns exactly `Dedup` of its input: no repeated entry, and an entry is kept iff it occurs in the input |
| Dedupe.DedupMembers | _app/index.js:170-177 | an element is in the dedup output iff it is in the input |
| Dedupe.DedupDistinct | _app/index.js:170-177 | the output has no two equal entries |
| Dedupe.DedupFirstSeenOrder | _app/index.js:170-177 | output entries appear in the order of their first occurrence in the input (stable, first wins) |
| Dedupe.DedupOfDistinct | _app/index.js:170-177 | a list without repetitions passes through unchanged |
| Dedupe.DedupIdempotent | _app/index.js:170-177 | deduplicating twice equals deduplicating once |
| Dedupe.DedupLength | _app/index.js:170-177 | the output length is the number of distinct input entries |
| Dedupe.FirstIndex | _app/index.js:172-175 | the returned position holds the element and no earlier position does |
| Normalize.PushCellIps | _app/index.js:97-102 | the two inner loops append to the list one tagged entry per CIDR of one cell, in key order |
| Normalize.CollectOktaIps | _app/index.js:94-102 | the three nested loops push one tagged entry per CIDR of the document, in `for...in` order |
| Normalize.CellCidrsMembers | _app/index.js:97-102 | a CIDR is collected from one Okta cell iff some key of the cell lists it |
| Normalize.OktaCidrsMembers | _app/index.js:95-102 | a CIDR is collected from the Okta document iff it is listed at the third level of some cell |
| Normalize.TaggedMembers | _app/index.js:100-101 | a pushed entry is exactly a listed CIDR paired with the marker |
| Normalize.TaggedAppend | _app/index.js:100-101 | tagging distributes over concatenation of CIDR lists |
| Normalize.DedupTagged | _app/index.js:100-105 | with one marker, deduplicating the tagged entries equals tagging the deduplicated CIDRs |
| Normalize.OktaRangeSpec | _app/index.js:93-107 | the Okta rule set holds the first min(50, d) of the d distinct CIDRs in first-seen order, each marked and listed in the document, with no repeats; with d <= 50 every listed CIDR is present |
| Normalize.CollectGithubIps | _app/index.js:130-140 | the loop pushes one tagged entry per CIDR under `git`, `hooks` or `pages`, in key order |
| Normalize.GithubCidrsMembers | _app/index.js:131-140 | a CIDR is collected iff it is listed under one of the three read categories |
| Normalize.GithubCidrsAppend | _app/index.js:131-140 | collecting from a concatenated document is collecting from each part in turn |
| Normalize.GithubRangeSpec | _app/index.js:129-143 | the GitHub rule set holds each distinct CIDR of the read categories once, in first-seen order, marked, and nothing else; its length is the distinct count, uncapped |
| Normalize.GithubIgnoresOtherCategories | _app/index.js:132-134 | inserting any other category anywhere in the document leaves the rule set unchanged |
| Normalize.GithubRangeExample | _app/index.js:129-143 | a CIDR under both `git` and `hooks`, an empty `pages` and a `web` entry give a one-entry rule set |
| Purge.StrippedSpec | _app/index.js:39-48 | the revoke request keeps `GroupId` and every permission entry, drops every other top-level key, and alters only the first entry, which keeps its ports, protocol and IPv4 ranges and loses `UserIdGroupPairs`, `PrefixListIds` and `Ipv6Ranges`; stripping twice changes nothing |
| Purge.PurgeOutcomeTwice | _app/index.js:35-48 | visiting a group twice ends as visiting it once, decides the same way each time and keeps the group id |
| Purge.RevokeRequestsFromGroups | _app/index.js:28-56 | every revoke request is the stripped record of a described group with an ingress permission |
| Purge.StrippedKeeps | _app/index.js:40-50 | the stripped record keeps the group id, the number of permissions and each permission's IPv4 ranges, and its first permission carries no IPv6, prefix-list or group-pair rules |
| Purge.RevokeKeepsRanges | _app/index.js:28-56 | for every permission of every described group, some revoke request of the purge carries that permission's IPv4 ranges unchanged |
| Purge.RevokeRequestsFollowGroups | _app/index.js:28-56 | one stripped revoke per group with ingress rules, for every such group, in the groups' order, and no other revoke |
| Purge.NoRevokeWithoutRules | _app/index.js:35-59 | when none of the first groups has an ingress permission, visiting them sends no revoke |
| Purge.RevokePlanStep | _app/index.js:28-56 | one more described group extends the revoke plan by its request exactly when it has ingress rules |
| Purge.SecurityGroup.constructor | _app/index.js:33 | builds the object form of one described group, the `params` object the loop deletes keys from, holding the given record |
| Purge.SecurityGroup.StripForRevoke | _app/index.js:40-48 | the nine `delete` statements leave the object equal to the stripped record |
| Purge.PurgeGroup | _app/index.js:33-59 | one visit strips the object and returns it as the revoke request exactly when the group had an ingress permission, sends nothing otherwise, and keeps every other object purged or untouched |
| Purge.VisitGroup | _app/index.js:28-61 | one loop iteration adds the group's id and its revoke request, if any, so the collected ids and requests are those of the groups visited so far |
| Purge.DeleteExistingRules | _app/index.js:21-63 | returns every group id in order and sends exactly the revoke requests of `RevokeRequests`; afterwards each described object is stripped iff it had an ingress permission, and unchanged otherwise |
| Apply.AuthorizeRequestsShape | _app/index.js:107-154 | every authorize request has only `GroupId` and one TCP 443→443 block with distinct entries carrying the provider's marker; Okta blocks hold at most 50 entries |
| Apply.AuthorizeGroup | _app/index.js:91-164 | for one group id the switch yields that group's request with the site's rule set for `okta` or `github`, nothing for the unsupported string, and throws for `undefined` |
| Apply.UpdateSgRules | _app/index.js:86-166 | for a recognised site one request per group id, in order, with that site's rule set; none for the unsupported string or `undefined`; `thrown` exactly when `data` is `undefined` and there is a group |
| Handler.GetWhitelistIpsCases | _app/index.js:67-82 | a missing `site` gives the unsupported string, an unknown site gives `undefined`, `okta`/`github` give the fetched document, and a failed fetch rejects |
| Handler.Handle | _app/index.js:182-187 | the run issues exactly `Trace` of the described groups as they were before the purge, and leaves each described object stripped if it had an ingress permission and unchanged otherwise |
| Handler.RunRevokesFirst | _app/index.js:184-186 | in a run every revoke precedes every authorize, and each revoke carries one of the purge's requests |
| Handler.RunAuthorizesFromApply | _app/index.js:184-186 | each authorize of a run carries one of the apply step's requests, and only a fetched document leads to any |
| Handler.RunAuthorizesEveryGroup | _app/index.js:184-186 | with a rule set in hand, a run is the purge's revokes followed by one authorize per group id, in order |
| Handler.PurgeBeforeApply | _app/index.js:184-186 | no revoke follows an authorize within a run |
| Handler.UnsupportedSiteOnlyPurges | _app/index.js:184-186 | with no or an unknown site a run sends the purge's revokes and nothing else |
| Handler.FailedDescribeDoesNothing | _app/index.js:184-186 | a rejected describe call sends no request at all |
| Handler.TraceAuthorizesEveryGroup | _app/index.js:184-186 | when the fetch yields a rule set, the run is the purge's revokes followed by one authorize per described group, in order, carrying that rule set |
| Handler.OktaRunAuthorizesEveryGroup | _app/index.js:184-186 | for site `okta` with its document fetched, the run ends with one authorize per described group, in order, with the Okta rule set |
| Handler.GithubRunAuthorizesEveryGroup | _app/index.js:184-186 | for site `github` with its document fetched, the run ends with one authorize per described group, in order, with the GitHub rule set |
| Handler.GithubErrorReplyAuthorizesNothing | _app/index.js:72-77 | a GitHub error reply with only `message` and `documentation_url` keys is taken as the document: the run is the purge's revokes followed by one authorize per described group with an empty rule set |
| Handler.DescribedRangesAreRevoked | _app/index.js:184-186 | whatever the site and the fetch, a run revokes every IPv4 range of every permission of a described group, whatever its description, and leaves out the first permission's IPv6, prefix-list and group-pair rules |
| Handler.GroupWithoutRulesIsOnlyAuthorized | _app/index.js:184-186 | a group without ingress permissions and with a unique id receives no revoke but does receive an authorize |
| Handler.InstalledRulesAreMarked | _app/index.js:184-186 | every authorize of a run has one TCP 443 block of distinct entries with the site's marker; for Okta its size is min(50, distinct CIDRs of the document) |

## Left out

- The EC2 client, its region and the `describeSecurityGroups` tag filter are
  not modelled. The described groups are an input, and `None` stands for a
  rejected describe call.
- The revoke and authorize calls are not modelled beyond the request each one
  sends. Their success or failure is only logged and changes nothing later in
  the run.
- The HTTP fetch of the two pinned URLs and `res.json()` are not modelled. The
  parsed document is an input, and `None` stands for a network error or a
  body that is not JSON. The HTTP status is not an input, since the code never
  reads it.
- JSON documents whose shape differs from the one the loops expect are not
  modelled: a string where a list is expected, or non-string CIDRs. Such a
  shape makes `for...in` visit characters or indices.
- `console.log` output is left out.
- An `IpRanges` entry always has a `Description` here. A described range
  without one is not modelled. Revoke requests copy the described ranges
  unchanged, so no property depends on it.
- The handler's promise chain is modelled as one sequential run. The
  `updateSgRules` promise is never awaited, and nothing in the run depends on
  when it settles.
- `dedupeIPs` compares entries structurally instead of by their
  `JSON.stringify` text. For the two-key objects built here the two agree.
- Handler.GetWhitelistIps: `okta` and `github` stand for the bodies of the
  fixed URLs, so the model does not capture which URL is fetched.
