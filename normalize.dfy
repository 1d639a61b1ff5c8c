/**
 * Provider normalisation inside `updateSgRules`: the Okta document is flattened
 * over exactly three `for...in` levels, the GitHub document over the values of
 * three fixed categories; every CIDR is tagged with the provider's marker, the
 * list is deduplicated, and only the Okta list is cut to 50 entries.
 */
module Normalize {
  import opened Records
  import opened Dedupe

  function Min(a: int, b: int): int
  {
    if a <= b then a else b
  }

  /** The `{CidrIp, Description}` entries pushed for `cidrs`, in order. */
  function Tagged(cidrs: seq<string>, marker: string): seq<IpRange>
  {
    seq(|cidrs|, k requires 0 <= k < |cidrs| => IpRange(cidrs[k], marker))
  }

  lemma TaggedAppend(a: seq<string>, b: seq<string>, marker: string)
    ensures Tagged(a + b, marker) == Tagged(a, marker) + Tagged(b, marker)
  {
  }

  /** An entry is pushed for a list exactly when it carries the marker and a CIDR of the list. */
  lemma TaggedMembers(cidrs: seq<string>, marker: string)
    ensures forall e :: e in Tagged(cidrs, marker) <==> e.description == marker && e.cidrIp in cidrs
  {
    var t := Tagged(cidrs, marker);
    forall e: IpRange | e.description == marker && e.cidrIp in cidrs
      ensures e in t
    {
      var k :| 0 <= k < |cidrs| && cidrs[k] == e.cidrIp;
      assert t[k] == e;
    }
  }

  /**
   * Tagging every CIDR with one marker is injective, so deduplicating the
   * entries is deduplicating the CIDRs.
   */
  lemma {:induction false} DedupTagged(cidrs: seq<string>, marker: string)
    ensures Dedup(Tagged(cidrs, marker)) == Tagged(Dedup(cidrs), marker)
  {
    if cidrs != [] {
      var n := |cidrs| - 1;
      var init := cidrs[..n];
      DedupTagged(init, marker);
      TaggedAppend(init, [cidrs[n]], marker);
      assert cidrs == init + [cidrs[n]];
      var t := Tagged(cidrs, marker);
      assert t[..|t| - 1] == Tagged(init, marker);
      assert t[|t| - 1] == IpRange(cidrs[n], marker);
      TaggedMembers(Dedup(init), marker);
      TaggedAppend(Dedup(init), [cidrs[n]], marker);
    }
  }

  // ---------------------------------------------------------------- Okta

  /** The CIDR lists of one Okta cell, concatenated in key order. */
  function CellCidrs(cell: seq<(string, seq<string>)>): seq<string>
  {
    if cell == [] then [] else CellCidrs(cell[..|cell| - 1]) + cell[|cell| - 1].1
  }

  /** Every CIDR of the Okta document, in the order of the three nested `for...in` loops. */
  function OktaCidrs(doc: OktaDoc): seq<string>
  {
    if doc == [] then [] else OktaCidrs(doc[..|doc| - 1]) + CellCidrs(doc[|doc| - 1].1)
  }

  /** `c` stands at some cell, key and position of the Okta document. */
  ghost predicate OktaListed(doc: OktaDoc, c: string)
  {
    exists i, j, k :: 0 <= i < |doc| && 0 <= j < |doc[i].1| && 0 <= k < |doc[i].1[j].1|
      && doc[i].1[j].1[k] == c
  }

  ghost predicate CellListed(cell: seq<(string, seq<string>)>, c: string)
  {
    exists j, k :: 0 <= j < |cell| && 0 <= k < |cell[j].1| && cell[j].1[k] == c
  }

  lemma {:induction false} CellCidrsMembers(cell: seq<(string, seq<string>)>)
    ensures forall c :: c in CellCidrs(cell) <==> CellListed(cell, c)
  {
    if cell != [] {
      var n := |cell| - 1;
      var init := cell[..n];
      CellCidrsMembers(init);
      forall c ensures c in CellCidrs(cell) <==> CellListed(cell, c) {
        if c in CellCidrs(init) {
          var j, k :| 0 <= j < |init| && 0 <= k < |init[j].1| && init[j].1[k] == c;
          assert cell[j] == init[j];
        } else if c in cell[n].1 {
          var k :| 0 <= k < |cell[n].1| && cell[n].1[k] == c;
          assert cell[n].1[k] == c;
        }
        if CellListed(cell, c) {
          var j, k :| 0 <= j < |cell| && 0 <= k < |cell[j].1| && cell[j].1[k] == c;
          if j < n {
            assert init[j] == cell[j];
            assert CellListed(init, c);
          } else {
            assert c in cell[n].1;
          }
        }
      }
    }
  }

  /** A CIDR is collected from the Okta document exactly when it stands somewhere in it. */
  lemma {:induction false} OktaCidrsMembers(doc: OktaDoc)
    ensures forall c :: c in OktaCidrs(doc) <==> OktaListed(doc, c)
  {
    if doc != [] {
      var n := |doc| - 1;
      var init := doc[..n];
      OktaCidrsMembers(init);
      CellCidrsMembers(doc[n].1);
      forall c ensures c in OktaCidrs(doc) <==> OktaListed(doc, c) {
        if c in OktaCidrs(init) {
          var i, j, k :| 0 <= i < |init| && 0 <= j < |init[i].1| && 0 <= k < |init[i].1[j].1|
            && init[i].1[j].1[k] == c;
          assert doc[i] == init[i];
        } else if c in CellCidrs(doc[n].1) {
          var j, k :| 0 <= j < |doc[n].1| && 0 <= k < |doc[n].1[j].1| && doc[n].1[j].1[k] == c;
          assert doc[n].1[j].1[k] == c;
        }
        if OktaListed(doc, c) {
          var i, j, k :| 0 <= i < |doc| && 0 <= j < |doc[i].1| && 0 <= k < |doc[i].1[j].1|
            && doc[i].1[j].1[k] == c;
          if i < n {
            assert init[i] == doc[i];
            assert OktaListed(init, c);
          } else {
            assert CellListed(doc[n].1, c);
          }
        }
      }
    }
  }

  /** The rule set of the Okta path: flatten, tag, dedup, `slice(0, 50)`. */
  function OktaRange(doc: OktaDoc): seq<IpRange>
  {
    var unique := Dedup(Tagged(OktaCidrs(doc), OKTA_MARKER));
    unique[..Min(OKTA_RULE_LIMIT, |unique|)]
  }

  /**
   * The Okta rule set holds the first min(50, d) distinct CIDRs of the document
   * in first-seen order, d being the number of distinct CIDRs; every entry
   * carries the Okta marker and a CIDR of the document, no two entries are
   * equal, and when d <= 50 no CIDR of the document is missing.
   */
  lemma OktaRangeSpec(doc: OktaDoc)
    ensures |OktaRange(doc)| == Min(OKTA_RULE_LIMIT, |Elems(OktaCidrs(doc))|)
    ensures OktaRange(doc) ==
      Tagged(Dedup(OktaCidrs(doc))[..Min(OKTA_RULE_LIMIT, |Dedup(OktaCidrs(doc))|)], OKTA_MARKER)
    ensures NoDuplicates(OktaRange(doc))
    ensures forall e :: e in OktaRange(doc) ==>
      e.description == OKTA_MARKER && OktaListed(doc, e.cidrIp)
    ensures |Elems(OktaCidrs(doc))| <= OKTA_RULE_LIMIT ==>
      forall c :: OktaListed(doc, c) ==> IpRange(c, OKTA_MARKER) in OktaRange(doc)
  {
    var cidrs := OktaCidrs(doc);
    var distinct := Dedup(cidrs);
    var r := OktaRange(doc);
    DedupTagged(cidrs, OKTA_MARKER);
    DedupLength(cidrs);
    DedupDistinct(cidrs);
    DedupMembers(cidrs);
    OktaCidrsMembers(doc);
    var m := Min(OKTA_RULE_LIMIT, |distinct|);
    assert r == Tagged(distinct, OKTA_MARKER)[..m];
    assert r == Tagged(distinct[..m], OKTA_MARKER);
    forall e | e in r
      ensures e.description == OKTA_MARKER && OktaListed(doc, e.cidrIp)
    {
      var k :| 0 <= k < |r| && r[k] == e;
      assert distinct[k] in distinct;
    }
    if |Elems(cidrs)| <= OKTA_RULE_LIMIT {
      assert r == Tagged(distinct, OKTA_MARKER);
      TaggedMembers(distinct, OKTA_MARKER);
    }
  }

  /** The two inner `for...in` loops of the Okta case: push one tagged entry per CIDR of a cell. */
  method PushCellIps(oktaIps: seq<IpRange>, ipRanges: seq<(string, seq<string>)>) returns (pushed: seq<IpRange>)
    ensures pushed == oktaIps + Tagged(CellCidrs(ipRanges), OKTA_MARKER)
  {
    pushed := oktaIps;
    for j := 0 to |ipRanges|
      invariant pushed == oktaIps + Tagged(CellCidrs(ipRanges[..j]), OKTA_MARKER)
    {
      var ip := ipRanges[j].1;
      for k := 0 to |ip|
        invariant pushed == oktaIps + Tagged(CellCidrs(ipRanges[..j]) + ip[..k], OKTA_MARKER)
      {
        TaggedAppend(CellCidrs(ipRanges[..j]) + ip[..k], [ip[k]], OKTA_MARKER);
        assert ip[..k + 1] == ip[..k] + [ip[k]];
        pushed := pushed + [IpRange(ip[k], OKTA_MARKER)];
      }
      assert ip[..|ip|] == ip;
      assert ipRanges[..j + 1][..j] == ipRanges[..j];
    }
    assert ipRanges[..|ipRanges|] == ipRanges;
  }

  /** The three nested `for...in` loops of the Okta case, pushing one tagged entry per CIDR. */
  method CollectOktaIps(ips: OktaDoc) returns (oktaIps: seq<IpRange>)
    ensures oktaIps == Tagged(OktaCidrs(ips), OKTA_MARKER)
  {
    oktaIps := [];
    for i := 0 to |ips|
      invariant oktaIps == Tagged(OktaCidrs(ips[..i]), OKTA_MARKER)
    {
      TaggedAppend(OktaCidrs(ips[..i]), CellCidrs(ips[i].1), OKTA_MARKER);
      assert ips[..i + 1][..i] == ips[..i];
      oktaIps := PushCellIps(oktaIps, ips[i].1);
    }
    assert ips[..|ips|] == ips;
  }

  // -------------------------------------------------------------- GitHub

  /** The categories of the GitHub meta document that are read. */
  predicate IsAuthCategory(key: string)
  {
    key == "git" || key == "hooks" || key == "pages"
  }

  /** The CIDRs under `git`, `hooks` and `pages`, in the document's key order. */
  function GithubCidrs(meta: GithubDoc): seq<string>
  {
    if meta == [] then []
    else
      var last := meta[|meta| - 1];
      GithubCidrs(meta[..|meta| - 1]) + (if IsAuthCategory(last.0) then last.1 else [])
  }

  /** `c` is listed under one of the three read categories. */
  ghost predicate GithubListed(meta: GithubDoc, c: string)
  {
    exists i, k :: 0 <= i < |meta| && IsAuthCategory(meta[i].0) && 0 <= k < |meta[i].1|
      && meta[i].1[k] == c
  }

  lemma {:induction false} GithubCidrsMembers(meta: GithubDoc)
    ensures forall c :: c in GithubCidrs(meta) <==> GithubListed(meta, c)
  {
    if meta != [] {
      var n := |meta| - 1;
      var init := meta[..n];
      GithubCidrsMembers(init);
      forall c ensures c in GithubCidrs(meta) <==> GithubListed(meta, c) {
        if c in GithubCidrs(init) {
          var i, k :| 0 <= i < |init| && IsAuthCategory(init[i].0) && 0 <= k < |init[i].1|
            && init[i].1[k] == c;
          assert meta[i] == init[i];
        } else if IsAuthCategory(meta[n].0) && c in meta[n].1 {
          var k :| 0 <= k < |meta[n].1| && meta[n].1[k] == c;
          assert meta[n].1[k] == c;
        }
        if GithubListed(meta, c) {
          var i, k :| 0 <= i < |meta| && IsAuthCategory(meta[i].0) && 0 <= k < |meta[i].1|
            && meta[i].1[k] == c;
          if i < n {
            assert init[i] == meta[i];
            assert GithubListed(init, c);
          } else {
            assert meta[n].1[k] in meta[n].1;
          }
        }
      }
    }
  }

  /** Collecting from two halves of the document is collecting from each half in turn. */
  lemma {:induction false} GithubCidrsAppend(a: GithubDoc, b: GithubDoc)
    ensures GithubCidrs(a + b) == GithubCidrs(a) + GithubCidrs(b)
  {
    if b != [] {
      var n := |b| - 1;
      GithubCidrsAppend(a, b[..n]);
      assert (a + b)[..|a + b| - 1] == a + b[..n];
    } else {
      assert a + b == a;
    }
  }

  /** The rule set of the GitHub path: collect, tag, dedup; no cap. */
  function GithubRange(meta: GithubDoc): seq<IpRange>
  {
    Dedup(Tagged(GithubCidrs(meta), GITHUB_MARKER))
  }

  /**
   * The GitHub rule set holds every distinct CIDR of the three read categories
   * exactly once, in first-seen order, each with the GitHub marker, and
   * nothing else: its length is the number of those distinct CIDRs, uncapped.
   */
  lemma GithubRangeSpec(meta: GithubDoc)
    ensures GithubRange(meta) == Tagged(Dedup(GithubCidrs(meta)), GITHUB_MARKER)
    ensures |GithubRange(meta)| == |Elems(GithubCidrs(meta))|
    ensures NoDuplicates(GithubRange(meta))
    ensures forall e :: e in GithubRange(meta) <==>
      e.description == GITHUB_MARKER && GithubListed(meta, e.cidrIp)
  {
    var cidrs := GithubCidrs(meta);
    DedupTagged(cidrs, GITHUB_MARKER);
    DedupLength(cidrs);
    DedupDistinct(Tagged(cidrs, GITHUB_MARKER));
    DedupMembers(cidrs);
    GithubCidrsMembers(meta);
    TaggedMembers(Dedup(cidrs), GITHUB_MARKER);
  }

  /** A category other than `git`, `hooks` and `pages`, wherever it stands, changes nothing. */
  lemma GithubIgnoresOtherCategories(before: GithubDoc, key: string, cidrs: seq<string>, after: GithubDoc)
    requires !IsAuthCategory(key)
    ensures GithubRange(before + [(key, cidrs)] + after) == GithubRange(before + after)
  {
    GithubCidrsAppend(before + [(key, cidrs)], after);
    GithubCidrsAppend(before, [(key, cidrs)]);
    GithubCidrsAppend(before, after);
    assert GithubCidrs([(key, cidrs)]) == [] by {
      assert [(key, cidrs)][..0] == [];
    }
    assert GithubCidrs(before + [(key, cidrs)] + after) == GithubCidrs(before + after);
  }

  /** The `for...in` loop of the GitHub case with its key test and inner loop. */
  method CollectGithubIps(ips: GithubDoc) returns (githubIps: seq<IpRange>)
    ensures githubIps == Tagged(GithubCidrs(ips), GITHUB_MARKER)
  {
    githubIps := [];
    for i := 0 to |ips|
      invariant githubIps == Tagged(GithubCidrs(ips[..i]), GITHUB_MARKER)
    {
      assert ips[..i + 1][..i] == ips[..i];
      if ips[i].0 == "git" || ips[i].0 == "hooks" || ips[i].0 == "pages" {
        var ipRanges := ips[i].1;
        for j := 0 to |ipRanges|
          invariant githubIps == Tagged(GithubCidrs(ips[..i]) + ipRanges[..j], GITHUB_MARKER)
        {
          TaggedAppend(GithubCidrs(ips[..i]) + ipRanges[..j], [ipRanges[j]], GITHUB_MARKER);
          assert ipRanges[..j + 1] == ipRanges[..j] + [ipRanges[j]];
          githubIps := githubIps + [IpRange(ipRanges[j], GITHUB_MARKER)];
        }
        assert ipRanges[..|ipRanges|] == ipRanges;
      }
    }
    assert ips[..|ips|] == ips;
  }

  /** The CIDRs collected from a one-category document. */
  lemma GithubCidrsOne(entry: (string, seq<string>))
    ensures GithubCidrs([entry]) == if IsAuthCategory(entry.0) then entry.1 else []
  {
    assert [entry][..0] == [];
  }

  /** A CIDR seen twice is kept once. */
  lemma DedupRepeated(c: string)
    ensures Dedup([c, c]) == [c]
  {
    assert [c][..0] == [];
    assert Dedup([c]) == [c];
    assert [c, c][..1] == [c];
  }

  /** The read categories of the example below collect the shared CIDR twice. */
  lemma GithubCidrsTwice(cidr: string)
    ensures GithubCidrs([("git", [cidr]), ("hooks", [cidr]), ("pages", [])]) == [cidr, cidr]
  {
    var git, hooks, pages := ("git", [cidr]), ("hooks", [cidr]), ("pages", []);
    GithubCidrsOne(git);
    GithubCidrsOne(hooks);
    GithubCidrsOne(pages);
    GithubCidrsAppend([git], [hooks]);
    assert [git] + [hooks] == [git, hooks];
    GithubCidrsAppend([git, hooks], [pages]);
    assert [git, hooks] + [pages] == [git, hooks, pages];
  }

  /**
   * A CIDR listed under both `git` and `hooks` is authorized once, an empty
   * `pages` list adds nothing, and the `web` category is not read.
   */
  lemma GithubRangeExample()
    ensures GithubRange([("git", ["1.2.3.0/24"]), ("hooks", ["1.2.3.0/24"]), ("pages", []), ("web", ["9.9.9.0/24"])])
      == [IpRange("1.2.3.0/24", GITHUB_MARKER)]
  {
    var cidr := "1.2.3.0/24";
    var read := [("git", [cidr]), ("hooks", [cidr]), ("pages", [])];
    var web := ("web", ["9.9.9.0/24"]);
    GithubIgnoresOtherCategories(read, web.0, web.1, []);
    assert read + [web] + [] == read + [web] == [read[0], read[1], read[2], web];
    assert read + [] == read;
    GithubCidrsTwice(cidr);
    DedupTagged([cidr, cidr], GITHUB_MARKER);
    DedupRepeated(cidr);
    assert GithubRange(read) == Tagged([cidr], GITHUB_MARKER);
  }
}
