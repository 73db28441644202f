/** Consolidation of the code-review members' findings (internal/codereview/aggregate.go). */
module Aggregate {
  import opened Options
  import opened Ordering
  import opened Text
  import Decimal

  datatype Finding = Finding(
    id: string, domain: string, severity: string, category: string, file: string, line: Option<int>,
    description: string, suggestedFix: string, assignedSkill: Option<string>, status: string,
    crossLaneOverlap: bool, mergedFrom: seq<string>)

  datatype MemberFile = MemberFile(name: string, findings: seq<Finding>)

  datatype SeverityCounts = SeverityCounts(high: nat, medium: nat, low: nat)

  datatype AggregateResult = AggregateResult(members: seq<string>, counts: SeverityCounts, findings: seq<Finding>)

  // ---- Names and identifiers -----------------------------------------------

  function PrefixChar(c: char): char {
    var u := UpperChar(c);
    if 'A' <= u <= 'Z' || '0' <= u <= '9' then u else 'X'
  }

  /** `memberPrefix`. */
  function MemberPrefix(name: string): (p: string)
    ensures 0 < |p| <= 4 && '-' !in p
  {
    var l := Lower(name);
    if l == "senior-engineer" || l == "sr" then "SR"
    else if l == "software-architect" || l == "arch" then "ARCH"
    else if l == "qa" then "QA"
    else if l == "regression-tester" || l == "reg" then "REG"
    else if name == "" then "GEN"
    else
      var n := if |name| < 4 then |name| else 4;
      seq(n, i requires 0 <= i < n => PrefixChar(name[i]))
  }

  /** The four known members in either case, and the first four characters of any other name. */
  lemma PrefixesAre(name: string)
    ensures var l, p := Lower(name), MemberPrefix(name);
            && (l in ["senior-engineer", "sr"] ==> p == "SR")
            && (l in ["software-architect", "arch"] ==> p == "ARCH")
            && (l == "qa" ==> p == "QA") && (l in ["regression-tester", "reg"] ==> p == "REG")
            && (name == "" ==> p == "GEN")
            && (name != "" && l !in KNOWN_NAMES ==>
                  && |p| == (if |name| < 4 then |name| else 4)
                  && forall i :: 0 <= i < |p| && name[i] < 128 as char ==>
                       if 'A' <= name[i] <= 'Z' || '0' <= name[i] <= '9' then p[i] == name[i]
                       else if 'a' <= name[i] <= 'z' then p[i] + 32 as char == name[i]
                       else p[i] == 'X')
  {
  }

  const KNOWN_NAMES := ["senior-engineer", "sr", "software-architect", "arch", "qa", "regression-tester", "reg"]

  function MemberId(prefix: string, number: nat): string { prefix + "-" + Decimal.Render(number) }

  function GlobalId(number: nat): string { "F-" + Decimal.Render3(number) }

  const DOMAIN_NAMES := ["senior-engineer", "software-architect", "qa", "regression-tester"]

  const FALLBACK_DESCRIPTION := "(no description provided)"

  /** `fillFindingDefaults`. */
  function FillDefaults(f: Finding, name: string): Finding {
    var l := Lower(name);
    f.(status := if f.status == "" then "open" else f.status,
       domain := if f.domain != "" then f.domain
                 else if l == "senior-engineer" then "complexity"
                 else if l == "software-architect" then "architecture"
                 else if l == "qa" then "qa"
                 else if l == "regression-tester" then "regression"
                 else name,
       description := if f.description != "" then f.description
                      else if f.suggestedFix != "" then f.suggestedFix
                      else FALLBACK_DESCRIPTION,
       category := if f.category == "" then "review-finding" else f.category)
  }

  /** Empty required fields are filled and nothing else is touched. */
  lemma FillsOnlyEmptyFields(f: Finding, name: string)
    ensures var r := FillDefaults(f, name);
            && r.status != "" && r.description != "" && r.category != "" && (name != "" ==> r.domain != "")
            && (f.status != "" ==> r.status == f.status) && (f.domain != "" ==> r.domain == f.domain)
            && (f.description != "" ==> r.description == f.description)
            && (f.category != "" ==> r.category == f.category)
            && r.(status := f.status, domain := f.domain, description := f.description, category := f.category) == f
    ensures var r := FillDefaults(f, name);
            && (f.status == "" ==> r.status == "open") && (f.category == "" ==> r.category == "review-finding")
            && (f.description == "" && f.suggestedFix != "" ==> r.description == f.suggestedFix)
            && (f.description == f.suggestedFix == "" ==> r.description == "(no description provided)")
            && (f.domain == "" && Lower(name) == "senior-engineer" ==> r.domain == "complexity")
            && (f.domain == "" && Lower(name) == "software-architect" ==> r.domain == "architecture")
            && (f.domain == "" && Lower(name) == "qa" ==> r.domain == "qa")
            && (f.domain == "" && Lower(name) == "regression-tester" ==> r.domain == "regression")
            && (f.domain == "" && Lower(name) !in DOMAIN_NAMES ==> r.domain == name)
  {
    hide Lower;
  }

  // ---- Collecting -----------------------------------------------------------

  datatype Tagged = Tagged(memberId: string, memberName: string, f: Finding)

  function TagFinding(m: MemberFile, i: nat): Tagged
    requires i < |m.findings|
  {
    var id := MemberId(MemberPrefix(m.name), i + 1);
    Tagged(id, m.name, FillDefaults(m.findings[i], m.name).(id := id))
  }

  function TagMember(m: MemberFile): (r: seq<Tagged>)
    ensures |r| == |m.findings|
    ensures forall i :: 0 <= i < |r| ==> r[i] == TagFinding(m, i)
  {
    seq(|m.findings|, i requires 0 <= i < |m.findings| => TagFinding(m, i))
  }

  function TagAll(members: seq<MemberFile>): seq<Tagged> {
    if members == [] then []
    else TagAll(members[..|members| - 1]) + TagMember(members[|members| - 1])
  }

  // ---- Overlap --------------------------------------------------------------

  datatype GroupKey = GroupKey(file: string, line: int)

  /** No line number is grouped with line 0 of the same file. */
  function KeyOf(t: Tagged): GroupKey { GroupKey(t.f.file, if t.f.line.Some? then t.f.line.value else 0) }

  /** The positions of group `k` among the first `n` findings. */
  function Positions(tagged: seq<Tagged>, k: GroupKey, n: nat): (r: seq<nat>)
    requires n <= |tagged|
    ensures forall x :: 0 <= x < |r| ==> r[x] < n && KeyOf(tagged[r[x]]) == k
    ensures forall i :: 0 <= i < n && KeyOf(tagged[i]) == k ==> i in r
    ensures forall x, y :: 0 <= x < y < |r| ==> r[x] < r[y]
  {
    if n == 0 then []
    else if KeyOf(tagged[n - 1]) == k then Positions(tagged, k, n - 1) + [n - 1]
    else Positions(tagged, k, n - 1)
  }

  function Group(tagged: seq<Tagged>, i: nat): seq<nat>
    requires i < |tagged|
  {
    Positions(tagged, KeyOf(tagged[i]), |tagged|)
  }

  predicate InRange(at: seq<nat>, n: nat) { forall x :: 0 <= x < |at| ==> at[x] < n }

  function IdsAt(tagged: seq<Tagged>, at: seq<nat>): (r: seq<string>)
    requires InRange(at, |tagged|)
    ensures |r| == |at| && forall x :: 0 <= x < |at| ==> r[x] == tagged[at[x]].memberId
  {
    seq(|at|, x requires 0 <= x < |at| => tagged[at[x]].memberId)
  }

  /** At least two lanes among these positions. */
  ghost predicate TwoLanes(tagged: seq<Tagged>, at: seq<nat>)
    requires InRange(at, |tagged|)
  {
    exists x, y :: 0 <= x < |at| && 0 <= y < |at| && tagged[at[x]].memberName != tagged[at[y]].memberName
  }

  function Without(ids: seq<string>, self: string): seq<string> {
    if ids == [] then []
    else
      var n := |ids| - 1;
      if ids[n] == self then Without(ids[..n], self) else Without(ids[..n], self) + [ids[n]]
  }

  /** Somebody of another lane reports on the same place. */
  ghost predicate CrossLane(tagged: seq<Tagged>, i: nat)
    requires i < |tagged|
  {
    exists j :: 0 <= j < |tagged| && KeyOf(tagged[j]) == KeyOf(tagged[i])
      && tagged[j].memberName != tagged[i].memberName
  }

  function Siblings(tagged: seq<Tagged>, i: nat): seq<string>
    requires i < |tagged|
  {
    Without(Sort(IdsAt(tagged, Group(tagged, i)), Leq), tagged[i].memberId)
  }

  ghost function Merged(tagged: seq<Tagged>, i: nat): Finding
    requires i < |tagged|
  {
    if CrossLane(tagged, i) then tagged[i].f.(mergedFrom := Siblings(tagged, i), crossLaneOverlap := true)
    else tagged[i].f
  }

  // ---- The aggregation ------------------------------------------------------

  method CollectMember(m: MemberFile) returns (tagged: seq<Tagged>)
    ensures tagged == TagMember(m)
  {
    hide FillDefaults, MemberPrefix, MemberId;
    tagged := [];
    var prefix := MemberPrefix(m.name);
    for i := 0 to |m.findings|
      invariant tagged == TagMember(m)[..i]
    {
      var memberId := MemberId(prefix, i + 1);
      var f := FillDefaults(m.findings[i], m.name).(id := memberId);
      tagged := tagged + [Tagged(memberId, m.name, f)];
    }
  }

  method Collect(members: seq<MemberFile>) returns (names: seq<string>, tagged: seq<Tagged>)
    ensures tagged == TagAll(members)
    ensures |names| == |members| && forall i :: 0 <= i < |names| ==> names[i] == members[i].name
  {
    hide TagMember;
    names, tagged := [], [];
    for n := 0 to |members|
      invariant tagged == TagAll(members[..n])
      invariant |names| == n && forall i :: 0 <= i < n ==> names[i] == members[i].name
    {
      assert members[..n + 1][..n] == members[..n];
      names := names + [members[n].name];
      var more := CollectMember(members[n]);
      tagged := tagged + more;
    }
    assert members[..|members|] == members;
  }

  /** The groups of the first `n` findings. */
  ghost predicate Grouped(groups: map<GroupKey, seq<nat>>, tagged: seq<Tagged>, n: nat)
    requires n <= |tagged|
  {
    && (forall k :: k in groups <==> Positions(tagged, k, n) != [])
    && (forall k :: k in groups ==> groups[k] == Positions(tagged, k, n))
  }

  lemma GroupOne(groups: map<GroupKey, seq<nat>>, tagged: seq<Tagged>, n: nat)
    requires n < |tagged| && Grouped(groups, tagged, n)
    ensures var k := KeyOf(tagged[n]);
            Grouped(groups[k := (if k in groups then groups[k] else []) + [n]], tagged, n + 1)
  {
    var k0 := KeyOf(tagged[n]);
    var after := groups[k0 := (if k0 in groups then groups[k0] else []) + [n]];
    forall k
      ensures k in after <==> Positions(tagged, k, n + 1) != []
      ensures k in after ==> after[k] == Positions(tagged, k, n + 1)
    {
      assert Positions(tagged, k, n + 1) ==
             if k == k0 then Positions(tagged, k, n) + [n] else Positions(tagged, k, n);
      hide Positions, KeyOf;
    }
  }

  /** Before the first finding and after the last one. */
  lemma GroupedEnds(groups: map<GroupKey, seq<nat>>, tagged: seq<Tagged>)
    ensures Grouped(map[], tagged, 0)
    ensures Grouped(groups, tagged, |tagged|) ==>
              && (forall k :: k in groups ==> groups[k] == Positions(tagged, k, |tagged|) && groups[k] != [])
              && (forall i :: 0 <= i < |tagged| ==> KeyOf(tagged[i]) in groups)
  {
    forall i | 0 <= i < |tagged| ensures Positions(tagged, KeyOf(tagged[i]), |tagged|) != [] {
      assert i in Positions(tagged, KeyOf(tagged[i]), |tagged|);
    }
  }

  method GroupByPlace(tagged: seq<Tagged>) returns (groups: map<GroupKey, seq<nat>>)
    ensures forall k :: k in groups ==> groups[k] == Positions(tagged, k, |tagged|) && groups[k] != []
    ensures forall i :: 0 <= i < |tagged| ==> KeyOf(tagged[i]) in groups
  {
    hide Positions, KeyOf, Grouped;
    groups := map[];
    GroupedEnds(groups, tagged);
    for i := 0 to |tagged|
      invariant Grouped(groups, tagged, i)
    {
      GroupOne(groups, tagged, i);
      var k := KeyOf(tagged[i]);
      groups := groups[k := (if k in groups then groups[k] else []) + [i]];
    }
    GroupedEnds(groups, tagged);
  }

  method SiblingIds(ids: seq<string>, selfId: string) returns (siblings: seq<string>)
    ensures siblings == Without(ids, selfId)
  {
    siblings := [];
    for x := 0 to |ids|
      invariant siblings == Without(ids[..x], selfId)
    {
      assert ids[..x + 1][..x] == ids[..x];
      if ids[x] != selfId {
        siblings := siblings + [ids[x]];
      }
    }
    assert ids[..|ids|] == ids;
  }

  /** What a group merge does to the finding at position `i`. */
  ghost function MergedIn(start: seq<Tagged>, at: seq<nat>, i: nat): Tagged
    requires InRange(at, |start|) && i < |start|
  {
    if i in at && TwoLanes(start, at) then
      start[i].(f := start[i].f.(mergedFrom := Without(Sort(IdsAt(start, at), Leq), start[i].memberId),
                                 crossLaneOverlap := true))
    else start[i]
  }

  /** If the group spans at least two lanes, every member learns its siblings. */
  method MergeGroup(start: seq<Tagged>, at: seq<nat>) returns (tagged: seq<Tagged>)
    requires InRange(at, |start|)
    ensures |tagged| == |start|
    ensures forall i :: 0 <= i < |start| ==> tagged[i] == MergedIn(start, at, i)
  {
    hide Sort, Without, Positions;
    tagged := start;
    if |at| < 2 {
      return;
    }
    var memberSet: set<string> := {};
    for x := 0 to |at|
      invariant forall name :: name in memberSet <==> exists y :: 0 <= y < x && start[at[y]].memberName == name
    {
      memberSet := memberSet + {start[at[x]].memberName};
    }
    NamesCount(start, at, memberSet);
    if |memberSet| < 2 {
      return;
    }
    var ids: seq<string> := [];
    for x := 0 to |at|
      invariant |ids| == x && forall y :: 0 <= y < x ==> ids[y] == start[at[y]].memberId
    {
      ids := ids + [start[at[x]].memberId];
    }
    assert ids == IdsAt(start, at);
    ids := Sort(ids, Leq);
    for x := 0 to |at|
      invariant |tagged| == |start|
      invariant forall i :: 0 <= i < |start| ==> tagged[i] == if i in at[..x] then MergedIn(start, at, i) else start[i]
    {
      var idx := at[x];
      assert idx in at && at[..x + 1] == at[..x] + [idx];
      var selfId := tagged[idx].memberId;
      var siblings := SiblingIds(ids, selfId);
      tagged := tagged[idx := tagged[idx].(f := tagged[idx].f.(mergedFrom := siblings, crossLaneOverlap := true))];
    }
    assert at[..|at|] == at;
  }

  lemma NamesCount(start: seq<Tagged>, at: seq<nat>, names: set<string>)
    requires at != [] && InRange(at, |start|)
    requires forall name :: name in names <==> exists y :: 0 <= y < |at| && start[at[y]].memberName == name
    ensures |names| >= 2 <==> TwoLanes(start, at)
  {
    var first := start[at[0]].memberName;
    assert first in names;
    if names == {first} {
      forall y | 0 <= y < |at| ensures start[at[y]].memberName == first {
        assert start[at[y]].memberName in names;
      }
    } else {
      var other :| other in names && other != first;
      var y :| 0 <= y < |at| && start[at[y]].memberName == other;
      SubsetSize({first, other}, names);
    }
  }

  lemma {:induction false} SubsetSize(a: set<string>, b: set<string>)
    requires a <= b
    ensures |a| <= |b|
  {
    if a != {} {
      var x :| x in a;
      SubsetSize(a - {x}, b - {x});
    }
  }

  function SeverityOf(f: Finding): string { Lower(f.severity) }

  function CountSeverity(findings: seq<Finding>, severity: string): nat {
    if findings == [] then 0
    else
      var n := |findings| - 1;
      CountSeverity(findings[..n], severity) + if SeverityOf(findings[n]) == severity then 1 else 0
  }

  lemma SeverityStep(findings: seq<Finding>, f: Finding)
    ensures forall severity :: CountSeverity(findings + [f], severity) ==
              CountSeverity(findings, severity) + if SeverityOf(f) == severity then 1 else 0
  {
    assert (findings + [f])[..|findings|] == findings;
  }

  lemma NoSeverities()
    ensures forall severity :: CountSeverity([], severity) == 0
  {
  }

  ghost function CountedAs(findings: seq<Finding>, severity: string): set<nat> {
    set i: nat | i < |findings| && Lower(findings[i].severity) == severity
  }

  lemma CountedStep(findings: seq<Finding>, f: Finding, severity: string)
    ensures |CountedAs(findings + [f], severity)| ==
              |CountedAs(findings, severity)| + if Lower(f.severity) == severity then 1 else 0
  {
    hide Lower;
    var before, after := CountedAs(findings, severity), CountedAs(findings + [f], severity);
    if Lower(f.severity) == severity {
      assert after == before + {|findings|};
    } else {
      assert after == before;
    }
  }

  /** Severities are counted in either case, and any other severity not at all. */
  lemma {:induction false} CountIsNumber(findings: seq<Finding>, severity: string)
    ensures CountSeverity(findings, severity) == |CountedAs(findings, severity)|
  {
    hide Lower, CountedAs, CountSeverity;
    if findings == [] {
      assert CountedAs([], severity) == {} by { NothingCounted(severity); }
      NoSeverities();
    } else {
      var n := |findings| - 1;
      CountIsNumber(findings[..n], severity);
      assert findings == findings[..n] + [findings[n]];
      SeverityStep(findings[..n], findings[n]);
      CountedStep(findings[..n], findings[n], severity);
    }
  }

  lemma NothingCounted(severity: string)
    ensures CountedAs([], severity) == {}
  {
  }

  lemma NothingMerged(collected: seq<Tagged>, all: set<GroupKey>)
    requires forall i :: 0 <= i < |collected| ==> KeyOf(collected[i]) in all
    ensures MergedExcept(collected, collected, all)
  {
  }

  lemma AllMerged(collected: seq<Tagged>, tagged: seq<Tagged>)
    requires MergedExcept(collected, tagged, {})
    ensures |tagged| == |collected| && forall i :: 0 <= i < |tagged| ==> tagged[i].f == Merged(collected, i)
  {
  }

  /** Every group is merged once, in the unspecified order of a Go map. */
  method MergeGroups(collected: seq<Tagged>) returns (tagged: seq<Tagged>)
    ensures |tagged| == |collected| && forall i :: 0 <= i < |tagged| ==> tagged[i].f == Merged(collected, i)
  {
    hide Positions, Merged, MergedIn, MergedExcept;
    tagged := collected;
    var groups := GroupByPlace(tagged);
    var rest := groups.Keys;
    NothingMerged(collected, rest);
    while rest != {}
      invariant rest <= groups.Keys
      invariant MergedExcept(collected, tagged, rest) && |tagged| == |collected|
    {
      var k :| k in rest;
      ghost var before := tagged;
      assert rest == (rest - {k}) + {k};
      rest := rest - {k};
      tagged := MergeGroup(tagged, groups[k]);
      MergeStep(collected, before, tagged, k, rest);
    }
    AllMerged(collected, tagged);
  }

  /** Global identifiers and the severity roll-up. */
  method Number(tagged: seq<Tagged>) returns (findings: seq<Finding>, counts: SeverityCounts)
    ensures |findings| == |tagged|
    ensures forall i :: 0 <= i < |tagged| ==> findings[i] == tagged[i].f.(id := GlobalId(i + 1))
    ensures counts == SeverityCounts(CountSeverity(findings, "high"), CountSeverity(findings, "medium"),
                                     CountSeverity(findings, "low"))
  {
    hide CountSeverity, GlobalId;
    NoSeverities();
    findings := [];
    counts := SeverityCounts(0, 0, 0);
    for i := 0 to |tagged|
      invariant |findings| == i
      invariant forall j :: 0 <= j < i ==> findings[j] == tagged[j].f.(id := GlobalId(j + 1))
      invariant counts == SeverityCounts(CountSeverity(findings, "high"), CountSeverity(findings, "medium"),
                                         CountSeverity(findings, "low"))
    {
      var f := tagged[i].f.(id := GlobalId(i + 1));
      SeverityStep(findings, f);
      findings := findings + [f];
      var severity := SeverityOf(f);
      if severity == "high" {
        counts := counts.(high := counts.high + 1);
      } else if severity == "medium" {
        counts := counts.(medium := counts.medium + 1);
      } else if severity == "low" {
        counts := counts.(low := counts.low + 1);
      }
    }
  }

  /** `Aggregate`. */
  method Aggregate(members: seq<MemberFile>) returns (r: AggregateResult)
    ensures |r.members| == |members| && forall i :: 0 <= i < |members| ==> r.members[i] == members[i].name
    ensures var tagged := TagAll(members);
            && |r.findings| == |tagged|
            && forall i :: 0 <= i < |tagged| ==> r.findings[i] == Merged(tagged, i).(id := GlobalId(i + 1))
    ensures r.counts == SeverityCounts(CountSeverity(r.findings, "high"), CountSeverity(r.findings, "medium"),
                                       CountSeverity(r.findings, "low"))
    ensures r.counts.high == |CountedAs(r.findings, "high")|
    ensures r.counts.medium == |CountedAs(r.findings, "medium")|
    ensures r.counts.low == |CountedAs(r.findings, "low")|
  {
    hide Merged, TagAll, CountSeverity, GlobalId, Lower;
    var names, tagged := Collect(members);
    tagged := MergeGroups(tagged);
    var findings, counts := Number(tagged);
    r := AggregateResult(names, counts, findings);
    CountIsNumber(findings, "high");
    CountIsNumber(findings, "medium");
    CountIsNumber(findings, "low");
  }

  /** The findings after some groups have been merged: those of `rest` are still to come. */
  ghost predicate MergedExcept(collected: seq<Tagged>, tagged: seq<Tagged>, rest: set<GroupKey>) {
    && |tagged| == |collected|
    && forall i :: 0 <= i < |tagged| ==>
         tagged[i] == if KeyOf(collected[i]) in rest then collected[i] else collected[i].(f := Merged(collected, i))
  }

  /** Merging group `k` works on what was collected, whatever groups were merged before. */
  lemma MergeStep(collected: seq<Tagged>, before: seq<Tagged>, after: seq<Tagged>, k: GroupKey, rest: set<GroupKey>)
    requires MergedExcept(collected, before, rest + {k}) && |after| == |before| && k !in rest
    requires forall i :: 0 <= i < |before| ==> after[i] == MergedIn(before, Positions(collected, k, |collected|), i)
    ensures MergedExcept(collected, after, rest)
  {
    hide Sort, Without;
    var at := Positions(collected, k, |collected|);
    assert IdsAt(before, at) == IdsAt(collected, at);
    forall i | 0 <= i < |after| ensures after[i] == if KeyOf(collected[i]) in rest then collected[i]
                                                    else collected[i].(f := Merged(collected, i))
    {
      if KeyOf(collected[i]) == k {
        LanesOfGroup(collected, before, at, i);
      } else {
        assert i !in at;
      }
    }
  }

  lemma LanesOfGroup(collected: seq<Tagged>, before: seq<Tagged>, at: seq<nat>, i: nat)
    requires |before| == |collected| && i < |collected| && at == Group(collected, i)
    requires forall j :: 0 <= j < |before| ==> before[j].memberName == collected[j].memberName
    ensures TwoLanes(before, at) <==> CrossLane(collected, i)
    ensures i in at
  {
    hide Positions;
    assert i in at;
    var x :| 0 <= x < |at| && at[x] == i;
    if CrossLane(collected, i) {
      var j :| 0 <= j < |collected| && KeyOf(collected[j]) == KeyOf(collected[i])
               && collected[j].memberName != collected[i].memberName;
      assert j in at;
      var y :| 0 <= y < |at| && at[y] == j;
      assert before[at[x]].memberName != before[at[y]].memberName;
    } else {
      forall y | 0 <= y < |at| ensures before[at[y]].memberName == collected[i].memberName {
        assert KeyOf(collected[at[y]]) == KeyOf(collected[i]);
      }
    }
  }

  // ---- Nothing is dropped ---------------------------------------------------

  /** The findings of all members, one after the other. */
  function Flatten(members: seq<MemberFile>): seq<Finding> {
    if members == [] then []
    else Flatten(members[..|members| - 1]) + members[|members| - 1].findings
  }

  /** The member that reported the i-th of all findings. */
  function Reporter(members: seq<MemberFile>, i: nat): string
    requires i < |Flatten(members)|
  {
    var n := |members| - 1;
    if i < |Flatten(members[..n])| then Reporter(members[..n], i) else members[n].name
  }

  lemma {:induction false} TagAllKeepsOrder(members: seq<MemberFile>, i: nat)
    requires i < |Flatten(members)|
    ensures |TagAll(members)| == |Flatten(members)|
    ensures var t := TagAll(members)[i];
            && t.memberName == Reporter(members, i)
            && t.f.id == t.memberId
            && t.f == FillDefaults(Flatten(members)[i], t.memberName).(id := t.memberId)
  {
    var n := |members| - 1;
    TagAllLength(members);
    TagAllLength(members[..n]);
    hide FillDefaults, MemberPrefix;
    if i < |Flatten(members[..n])| {
      TagAllKeepsOrder(members[..n], i);
    }
  }

  lemma {:induction false} TagAllLength(members: seq<MemberFile>)
    ensures |TagAll(members)| == |Flatten(members)|
  {
    if members != [] {
      TagAllLength(members[..|members| - 1]);
    }
  }

  /** Preserve-all: the i-th consolidated finding is the i-th reported one with its empty
      fields filled; only the identifier and the two overlap fields are the aggregation's. */
  lemma PreservesAll(members: seq<MemberFile>, i: nat)
    requires i < |Flatten(members)|
    ensures |TagAll(members)| == |Flatten(members)|
    ensures var f := Flatten(members)[i];
            var r := Merged(TagAll(members), i).(id := GlobalId(i + 1));
            && r.(id := f.id, mergedFrom := f.mergedFrom, crossLaneOverlap := f.crossLaneOverlap)
               == FillDefaults(f, Reporter(members, i))
            && (!CrossLane(TagAll(members), i) ==>
              r.mergedFrom == f.mergedFrom && r.crossLaneOverlap == f.crossLaneOverlap)
            && r.id == "F-" + Decimal.Render3(i + 1)
  {
    TagAllKeepsOrder(members, i);
    FillsOnlyEmptyFields(Flatten(members)[i], Reporter(members, i));
    hide FillDefaults, TagAll, Flatten, Reporter, Siblings;
  }

  /** A finding ends up marked exactly if it was so reported or another member reported one for the
      same line of the same file; a missing line counts as line 0. */
  lemma OverlapIff(members: seq<MemberFile>, i: nat)
    requires i < |Flatten(members)|
    ensures |TagAll(members)| == |Flatten(members)|
    ensures var all := Flatten(members);
            Merged(TagAll(members), i).crossLaneOverlap <==>
              all[i].crossLaneOverlap || exists j: nat ::
                && j < |all| && Reporter(members, j) != Reporter(members, i) && all[j].file == all[i].file
                && (all[j].line == all[i].line || (all[j].line in {None, Some(0)} && all[i].line in {None, Some(0)}))
  {
    var tagged, all := TagAll(members), Flatten(members);
    TagAllKeepsOrder(members, i);
    forall j: nat | j < |all|
      ensures |tagged| == |all| && tagged[j].memberName == Reporter(members, j)
      ensures KeyOf(tagged[j]) == KeyOf(tagged[i]) <==>
                && all[j].file == all[i].file
                && (all[j].line == all[i].line || (all[j].line in {None, Some(0)} && all[i].line in {None, Some(0)}))
    {
      TagAllKeepsOrder(members, j);
    }
    hide TagAll, Flatten, Reporter, KeyOf, Siblings, FillDefaults;
  }

  /** Global identifiers never repeat, for any number of findings. */
  lemma GlobalIdsDistinct(i: nat, j: nat)
    ensures GlobalId(i) == GlobalId(j) ==> i == j
  {
    Decimal.ValueOfRender3(i);
    Decimal.ValueOfRender3(j);
    assert GlobalId(i)[2..] == Decimal.Render3(i) && GlobalId(j)[2..] == Decimal.Render3(j);
    hide Decimal.Render3, Decimal.Value;
  }

  // ---- Cross references -----------------------------------------------------

  lemma {:induction false} FirstDash(p: string, q: string, a: string, b: string)
    requires '-' !in p && '-' !in q && p + "-" + a == q + "-" + b
    ensures p == q && a == b
  {
    var s := p + "-" + a;
    assert s[|p|] == '-' && s[|q|] == '-';
    forall x | 0 <= x < |p| ensures s[x] != '-' { assert s[x] == p[x] && p[x] in p; }
    forall x | 0 <= x < |q| ensures s[x] != '-' { assert s[x] == q[x] && q[x] in q; }
    assert |p| == |q|;
    assert p == s[..|p|] && q == s[..|p|] && a == s[|p| + 1..] && b == s[|p| + 1..];
  }

  lemma MemberIdsDistinct(p: string, i: nat, q: string, j: nat)
    requires '-' !in p && '-' !in q
    ensures MemberId(p, i) == MemberId(q, j) ==> p == q && i == j
  {
    hide Decimal.Render, Decimal.Value;
    if MemberId(p, i) == MemberId(q, j) {
      FirstDash(p, q, Decimal.Render(i), Decimal.Render(j));
      Decimal.ValueOfRender(i);
      Decimal.ValueOfRender(j);
    }
  }

  /** No two members share an identifier prefix. */
  predicate DistinctPrefixes(members: seq<MemberFile>) {
    forall x, y :: 0 <= x < y < |members| ==> MemberPrefix(members[x].name) != MemberPrefix(members[y].name)
  }

  /** A tagged finding comes from some member and position. */
  lemma {:induction false} TagOrigin(members: seq<MemberFile>, i: nat) returns (m: nat, n: nat)
    requires i < |TagAll(members)|
    ensures m < |members| && n < |members[m].findings| && TagAll(members)[i] == TagFinding(members[m], n)
    ensures i == |TagAll(members[..m])| + n
    ensures TagAll(members)[i].memberId == MemberPrefix(members[m].name) + "-" + Decimal.Render(n + 1)
  {
    var last := |members| - 1;
    var before := TagAll(members[..last]);
    hide TagFinding, FillDefaults, MemberPrefix;
    if i < |before| {
      m, n := TagOrigin(members[..last], i);
      assert members[..last][..m] == members[..m];
    } else {
      m, n := last, i - |before|;
    }
  }

  /** With distinct prefixes, member identifiers are unique across all findings. */
  lemma IdsAreUnique(members: seq<MemberFile>, i: nat, j: nat)
    requires DistinctPrefixes(members) && i < |TagAll(members)| && j < |TagAll(members)|
    requires TagAll(members)[i].memberId == TagAll(members)[j].memberId
    ensures i == j
  {
    hide MemberPrefix, FillDefaults, TagAll, MemberId;
    var m, n := TagOrigin(members, i);
    var k, o := TagOrigin(members, j);
    MemberIdsDistinct(MemberPrefix(members[m].name), n + 1, MemberPrefix(members[k].name), o + 1);
  }

  lemma {:induction false} WithoutCounts(ids: seq<string>, self: string, x: string)
    ensures multiset(Without(ids, self))[x] == if x == self then 0 else multiset(ids)[x]
  {
    if ids != [] {
      var n := |ids| - 1;
      WithoutCounts(ids[..n], self, x);
      assert ids == ids[..n] + [ids[n]];
      AppendCounts(ids[..n], ids[n], x);
      AppendCounts(Without(ids[..n], self), ids[n], x);
    }
  }

  lemma {:induction false} WithoutKeepsSorted(ids: seq<string>, self: string)
    requires Sorted(ids, Leq)
    ensures Sorted(Without(ids, self), Leq)
    ensures forall x :: x in Without(ids, self) ==> x in ids
  {
    if ids != [] {
      var n := |ids| - 1;
      WithoutKeepsSorted(ids[..n], self);
      forall x | x in Without(ids[..n], self) ensures x in ids && Leq(x, ids[n]) {
        var j :| 0 <= j < n && ids[..n][j] == x;
        assert ids[j] == x;
      }
      hide Leq;
    }
  }

  /** The cross references of finding `i`: sorted, and containing precisely the identifiers of
      the other findings at its place that differ from its own. */
  lemma SiblingsAre(tagged: seq<Tagged>, i: nat, id: string)
    requires i < |tagged|
    ensures Sorted(Siblings(tagged, i), Leq)
    ensures id in Siblings(tagged, i) <==>
              id != tagged[i].memberId
              && exists j :: 0 <= j < |tagged| && KeyOf(tagged[j]) == KeyOf(tagged[i]) && tagged[j].memberId == id
  {
    hide Sort, Leq, Without;
    var at := Group(tagged, i);
    var ids := IdsAt(tagged, at);
    var sorted := Sort(ids, Leq);
    LeqIsTotalPreorder();
    SortSorts(ids, Leq);
    WithoutKeepsSorted(sorted, tagged[i].memberId);
    WithoutCounts(sorted, tagged[i].memberId, id);
    assert id in Siblings(tagged, i) <==> multiset(Siblings(tagged, i))[id] > 0;
    assert id in ids <==> multiset(ids)[id] > 0;
    if id in ids {
      var x :| 0 <= x < |ids| && ids[x] == id;
      assert KeyOf(tagged[at[x]]) == KeyOf(tagged[i]);
    }
    if exists j :: 0 <= j < |tagged| && KeyOf(tagged[j]) == KeyOf(tagged[i]) && tagged[j].memberId == id {
      var j :| 0 <= j < |tagged| && KeyOf(tagged[j]) == KeyOf(tagged[i]) && tagged[j].memberId == id;
      assert j in at;
      var x :| 0 <= x < |at| && at[x] == j;
      assert ids[x] == id;
    }
  }

  /** With distinct prefixes, a finding in a cross-lane group refers to every other finding of
      the group and to nothing else. */
  lemma RefersToAllOthers(members: seq<MemberFile>, i: nat, j: nat)
    requires DistinctPrefixes(members) && i < |TagAll(members)| && j < |TagAll(members)|
    ensures var tagged := TagAll(members);
            CrossLane(tagged, i) ==>
              (tagged[j].memberId in Merged(tagged, i).mergedFrom <==> i != j && KeyOf(tagged[i]) == KeyOf(tagged[j]))
  {
    var tagged := TagAll(members);
    SiblingsAre(tagged, i, tagged[j].memberId);
    forall k | 0 <= k < |tagged| && tagged[k].memberId == tagged[j].memberId
      ensures k == j { IdsAreUnique(members, k, j); }
    if tagged[i].memberId == tagged[j].memberId { IdsAreUnique(members, i, j); }
    hide TagAll, Siblings;
  }

  /** Cross references are mutual. */
  lemma ReferencesAreSymmetric(members: seq<MemberFile>, i: nat, j: nat)
    requires DistinctPrefixes(members) && i < |TagAll(members)| && j < |TagAll(members)|
    requires var tagged := TagAll(members);
             CrossLane(tagged, i) && tagged[j].memberId in Merged(tagged, i).mergedFrom
    ensures var tagged := TagAll(members);
            CrossLane(tagged, j) && tagged[i].memberId in Merged(tagged, j).mergedFrom
  {
    RefersToAllOthers(members, i, j);
    RefersToAllOthers(members, j, i);
    hide TagAll, Merged;
    LanesAreShared(TagAll(members), i, j);
  }

  lemma LanesAreShared(tagged: seq<Tagged>, i: nat, j: nat)
    requires i < |tagged| && j < |tagged| && KeyOf(tagged[i]) == KeyOf(tagged[j])
    ensures CrossLane(tagged, i) <==> CrossLane(tagged, j)
  {
    if CrossLane(tagged, i) {
      var k :| 0 <= k < |tagged| && KeyOf(tagged[k]) == KeyOf(tagged[i])
        && tagged[k].memberName != tagged[i].memberName;
      assert tagged[k].memberName != tagged[j].memberName || tagged[i].memberName != tagged[j].memberName;
    }
    if CrossLane(tagged, j) {
      var k :| 0 <= k < |tagged| && KeyOf(tagged[k]) == KeyOf(tagged[j])
        && tagged[k].memberName != tagged[j].memberName;
      assert tagged[k].memberName != tagged[i].memberName || tagged[i].memberName != tagged[j].memberName;
    }
  }

  /** All others are listed exactly when none of them carries the finding's own identifier. */
  lemma SiblingsCompleteIff(tagged: seq<Tagged>, i: nat)
    requires i < |tagged|
    ensures |Siblings(tagged, i)| == |Group(tagged, i)| - 1
            <==> forall j :: 0 <= j < |tagged| && j != i && KeyOf(tagged[j]) == KeyOf(tagged[i])
                   ==> tagged[j].memberId != tagged[i].memberId
  {
    hide Sort, Leq, Without;
    var at, self := Group(tagged, i), tagged[i].memberId;
    var ids := IdsAt(tagged, at);
    WithoutLength(Sort(ids, Leq), self);
    assert |Sort(ids, Leq)| == |multiset(Sort(ids, Leq))| == |ids|;
    assert i in at;
    var x :| 0 <= x < |at| && at[x] == i;
    OnceIff(ids, x);
    forall y | 0 <= y < |at| ensures at[y] == i <==> y == x {}
    if forall y :: 0 <= y < |ids| && y != x ==> ids[y] != self {
      forall j | 0 <= j < |tagged| && j != i && KeyOf(tagged[j]) == KeyOf(tagged[i])
        ensures tagged[j].memberId != self {
        assert j in at;
        var y :| 0 <= y < |at| && at[y] == j;
        assert ids[y] == tagged[j].memberId;
      }
    }
  }

  lemma {:induction false} TwoMembers(x: MemberFile, y: MemberFile)
    requires |x.findings| == |y.findings| == 1
    ensures TagAll([x, y]) == [TagFinding(x, 0), TagFinding(y, 0)]
  {
    hide TagFinding;
    assert [x, y][..1] == [x] && [x][..0] == [];
    assert TagAll([x]) == [TagFinding(x, 0)];
  }

  /** Two members with one prefix, each with one finding at the same place: both findings are
      marked as overlapping, and neither refers to the other. */
  lemma OnePrefixHidesBoth(name: string, other: string, f: Finding, g: Finding)
    requires name != other && MemberPrefix(name) == MemberPrefix(other) && f.file == g.file && f.line == g.line
    ensures var tagged := TagAll([MemberFile(name, [f]), MemberFile(other, [g])]);
            && |tagged| == 2 && Merged(tagged, 0).crossLaneOverlap && Merged(tagged, 1).crossLaneOverlap
            && Merged(tagged, 0).mergedFrom == [] && Merged(tagged, 1).mergedFrom == []
  {
    TwoMembers(MemberFile(name, [f]), MemberFile(other, [g]));
    hide TagAll, MemberPrefix, Siblings, MemberId, Lower;
    var tagged := TagAll([MemberFile(name, [f]), MemberFile(other, [g])]);
    assert KeyOf(tagged[0]) == KeyOf(tagged[1]) && tagged[0].memberId == tagged[1].memberId;
    assert CrossLane(tagged, 0) && CrossLane(tagged, 1);
    forall i | 0 <= i < 2 ensures Siblings(tagged, i) == [] {
      if Siblings(tagged, i) != [] { SiblingsAre(tagged, i, Siblings(tagged, i)[0]); }
    }
  }

  /** As qa and QA have. */
  lemma CaseSharesPrefix()
    ensures "qa" != "QA" && MemberPrefix("qa") == MemberPrefix("QA")
  {
    assert Lower("qa") == "qa" && Lower("QA") == "qa";
  }

  lemma {:induction false} WithoutLength(ids: seq<string>, self: string)
    ensures |Without(ids, self)| == |ids| - multiset(ids)[self]
  {
    if ids != [] {
      var n := |ids| - 1;
      WithoutLength(ids[..n], self);
      assert ids == ids[..n] + [ids[n]];
      AppendCounts(ids[..n], ids[n], self);
    }
  }

  lemma OnceIff(ids: seq<string>, x: nat)
    requires x < |ids|
    ensures multiset(ids)[ids[x]] == 1 <==> forall y :: 0 <= y < |ids| && y != x ==> ids[y] != ids[x]
  {
    var self := ids[x];
    assert ids == ids[..x] + [self] + ids[x + 1..];
    assert multiset(ids)[self] == multiset(ids[..x])[self] + 1 + multiset(ids[x + 1..])[self];
    assert self in ids[..x] <==> multiset(ids[..x])[self] > 0;
    assert self in ids[x + 1..] <==> multiset(ids[x + 1..])[self] > 0;
    forall y | 0 <= y < |ids| && y != x
      ensures y < x ==> ids[y] == ids[..x][y]
      ensures y > x ==> ids[y] == ids[x + 1..][y - x - 1]
    {
    }
  }
}
