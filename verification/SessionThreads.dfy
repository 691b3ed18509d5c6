/** The console's grouping of sessions into threads. Dates are finite instants; `threadKey` and
    the collation rank of the id are computed by the caller. */
module SessionThreads {
  import opened OrderedDict
  import opened StableSort

  datatype Session = Session(
    id: string,
    idRank: int,
    threadKey: string,
    createdAt: Option<int>,
    lastMessageAt: int,
    messageCount: int)

  datatype Group = Group(
    threadKey: string,
    sessions: seq<Session>,
    latest: Session,
    totalMessageCount: int,
    lastMessageAt: int)

  function CreatedAt(s: Session): int { if s.createdAt.Some? then s.createdAt.value else s.lastMessageAt }

  predicate Before(a: Session, b: Session) {
    CreatedAt(a) < CreatedAt(b) || (CreatedAt(a) == CreatedAt(b) && a.idRank <= b.idRank)
  }

  predicate LaterFirst(a: Session, b: Session) { a.lastMessageAt >= b.lastMessageAt }

  predicate LatestGroupFirst(a: Group, b: Group) { a.lastMessageAt >= b.lastMessageAt }

  function Messages(s: Session): nat { if s.messageCount > 0 then s.messageCount else 0 }

  function TotalMessages(sessions: seq<Session>): nat {
    if sessions == [] then 0 else TotalMessages(sessions[..|sessions| - 1]) + Messages(sessions[|sessions| - 1])
  }

  type Threads = Dict<seq<Session>>

  function Members(grouped: Threads, key: string): seq<Session> {
    match Lookup(grouped, key) case None => [] case Some(members) => members
  }

  function Grouped(sessions: seq<Session>): Threads {
    if sessions == [] then []
    else
      var d, s := Grouped(sessions[..|sessions| - 1]), sessions[|sessions| - 1];
      Put(d, s.threadKey, Members(d, s.threadKey) + [s])
  }

  function MakeGroup(key: string, members: seq<Session>): Group
    requires members != []
  {
    var chronological := Sort(members, Before);
    var latest := Sort(chronological, LaterFirst)[0];
    Group(key, chronological, latest, TotalMessages(chronological), latest.lastMessageAt)
  }

  ghost predicate AllInhabited(d: Threads) { forall i :: 0 <= i < |d| ==> d[i].1 != [] }

  function MakeGroups(d: Threads): seq<Group>
    requires AllInhabited(d)
  {
    seq(|d|, i requires 0 <= i < |d| => MakeGroup(d[i].0, d[i].1))
  }

  function BuildGroups(sessions: seq<Session>): seq<Group> {
    GroupedInhabited(sessions);
    Sort(MakeGroups(Grouped(sessions)), LatestGroupFirst)
  }

  lemma GroupedNext(sessions: seq<Session>, n: nat)
    requires n < |sessions|
    ensures var d, s := Grouped(sessions[..n]), sessions[n];
      Grouped(sessions[..n + 1]) == Put(d, s.threadKey, Members(d, s.threadKey) + [s])
  {
    assert sessions[..n + 1][..n] == sessions[..n];
  }

  lemma MadeNext(d: Threads, n: nat)
    requires AllInhabited(d) && n < |d|
    ensures MakeGroups(d)[..n + 1] == MakeGroups(d)[..n] + [MakeGroup(d[n].0, d[n].1)]
  {
  }

  /** `buildSessionThreadGroups` */
  method BuildSessionThreadGroups(sessions: seq<Session>) returns (groups: seq<Group>)
    ensures groups == BuildGroups(sessions)
  {
    var grouped: Threads := [];
    for n := 0 to |sessions|
      invariant grouped == Grouped(sessions[..n])
    {
      GroupedNext(sessions, n);
      var s := sessions[n];
      grouped := Put(grouped, s.threadKey, Members(grouped, s.threadKey) + [s]);
    }
    assert sessions[..|sessions|] == sessions;
    GroupedInhabited(sessions);
    var made: seq<Group> := [];
    for n := 0 to |grouped|
      invariant made == MakeGroups(grouped)[..n]
    {
      MadeNext(grouped, n);
      made := made + [MakeGroup(grouped[n].0, grouped[n].1)];
    }
    assert MakeGroups(grouped)[..|grouped|] == MakeGroups(grouped);
    groups := Sort(made, LatestGroupFirst);
  }

  // ----- the partition -----

  function OfThread(sessions: seq<Session>, key: string): seq<Session> {
    if sessions == [] then []
    else
      var s := sessions[|sessions| - 1];
      OfThread(sessions[..|sessions| - 1], key) + (if s.threadKey == key then [s] else [])
  }

  /** The map holds, for each key, the sessions of that thread in input order. */
  lemma {:induction false} GroupedMembers(sessions: seq<Session>, key: string)
    ensures Distinct(Grouped(sessions))
    ensures Lookup(Grouped(sessions), key)
      == if OfThread(sessions, key) == [] then None else Some(OfThread(sessions, key))
  {
    if sessions != [] {
      var init, s := sessions[..|sessions| - 1], sessions[|sessions| - 1];
      GroupedMembers(init, key);
      GroupedMembers(init, s.threadKey);
      assert OfThread(init, key) + [] == OfThread(init, key);
      PutLookup(Grouped(init), s.threadKey, Members(Grouped(init), s.threadKey) + [s], key);
      PutDistinct(Grouped(init), s.threadKey, Members(Grouped(init), s.threadKey) + [s]);
    }
  }

  lemma GroupedInhabited(sessions: seq<Session>)
    ensures AllInhabited(Grouped(sessions))
  {
    var d := Grouped(sessions);
    forall i | 0 <= i < |d| ensures d[i].1 != [] {
      GroupedMembers(sessions, d[i].0);
      LookupEntry(d, i);
    }
  }

  lemma {:induction false} OfThreadMember(sessions: seq<Session>, key: string, s: Session)
    ensures s in OfThread(sessions, key) <==> s in sessions && s.threadKey == key
  {
    if sessions != [] {
      OfThreadMember(sessions[..|sessions| - 1], key, s);
      assert sessions == sessions[..|sessions| - 1] + [sessions[|sessions| - 1]];
    }
  }

  lemma Preorders()
    ensures TotalPreorder(Before) && TotalPreorder(LaterFirst) && TotalPreorder(LatestGroupFirst)
  {
  }

  /** A group is a chronological permutation of its members with a latest session of maximal
      last-message time. */
  ghost predicate WellFormed(g: Group, members: seq<Session>) {
    multiset(g.sessions) == multiset(members) && Sorted(g.sessions, Before)
    && g.latest in members && (forall s :: s in members ==> s.lastMessageAt <= g.latest.lastMessageAt)
    && g.lastMessageAt == g.latest.lastMessageAt
    && g.totalMessageCount == TotalMessages(members)
  }

  lemma MakeGroupWellFormed(key: string, members: seq<Session>)
    requires members != []
    ensures WellFormed(MakeGroup(key, members), members) && MakeGroup(key, members).threadKey == key
  {
    Preorders();
    var c := Sort(members, Before);
    SortPermutes(members, Before);
    SortSorts(members, Before);
    var l := Sort(c, LaterFirst);
    SortPermutes(c, LaterFirst);
    SortSorts(c, LaterFirst);
    SortKeepsTotal(members);
    assert l[0] in l;
    forall s | s in members ensures s.lastMessageAt <= l[0].lastMessageAt {
      assert s in l;
      var i :| 0 <= i < |l| && l[i] == s;
      assert i > 0 ==> LaterFirst(l[0], l[i]);
    }
  }

  lemma {:induction false} InsertKeepsTotal(s: seq<Session>, x: Session)
    ensures TotalMessages(Insert(s, x, Before)) == TotalMessages(s) + Messages(x)
  {
    if s == [] || Before(s[|s| - 1], x) {
      assert (s + [x])[..|s|] == s;
    } else {
      var r := Insert(s[..|s| - 1], x, Before);
      InsertKeepsTotal(s[..|s| - 1], x);
      assert (r + [s[|s| - 1]])[..|r|] == r;
    }
  }

  lemma {:induction false} SortKeepsTotal(s: seq<Session>)
    ensures TotalMessages(Sort(s, Before)) == TotalMessages(s)
  {
    if s != [] {
      SortKeepsTotal(s[..|s| - 1]);
      InsertKeepsTotal(Sort(s[..|s| - 1], Before), s[|s| - 1]);
    }
  }

  /** The groups before sorting: one per key, holding exactly that thread. */
  lemma RawGroups(sessions: seq<Session>, i: nat)
    requires i < |Grouped(sessions)|
    ensures AllInhabited(Grouped(sessions))
    ensures var g := MakeGroups(Grouped(sessions))[i];
      g.threadKey == Grouped(sessions)[i].0 && WellFormed(g, OfThread(sessions, g.threadKey))
  {
    var d := Grouped(sessions);
    GroupedInhabited(sessions);
    GroupedMembers(sessions, d[i].0);
    LookupEntry(d, i);
    MakeGroupWellFormed(d[i].0, d[i].1);
  }

  lemma GroupMember(sessions: seq<Session>, g: Group)
    requires g in BuildGroups(sessions)
    ensures WellFormed(g, OfThread(sessions, g.threadKey))
    ensures exists i :: 0 <= i < |Grouped(sessions)| && Grouped(sessions)[i].0 == g.threadKey
  {
    GroupedInhabited(sessions);
    var raw := MakeGroups(Grouped(sessions));
    SortPermutes(raw, LatestGroupFirst);
    var i :| 0 <= i < |raw| && raw[i] == g;
    RawGroups(sessions, i);
  }

  ghost predicate KeysDistinct(groups: seq<Group>) {
    forall i, j :: 0 <= i < j < |groups| ==> groups[i].threadKey != groups[j].threadKey
  }

  lemma {:induction false} InsertKeysDistinct(groups: seq<Group>, g: Group)
    requires KeysDistinct(groups) && forall h :: h in groups ==> h.threadKey != g.threadKey
    ensures KeysDistinct(Insert(groups, g, LatestGroupFirst))
  {
    if groups != [] && !LatestGroupFirst(groups[|groups| - 1], g) {
      var init, last := groups[..|groups| - 1], groups[|groups| - 1];
      var r := Insert(init, g, LatestGroupFirst);
      InsertKeysDistinct(init, g);
      InsertMultiset(init, g, LatestGroupFirst);
      forall i | 0 <= i < |r| ensures r[i].threadKey != last.threadKey {
        assert r[i] in multiset(r);
        assert r[i] in init || r[i] == g;
      }
    }
  }

  lemma {:induction false} SortKeysDistinct(groups: seq<Group>)
    requires KeysDistinct(groups)
    ensures KeysDistinct(Sort(groups, LatestGroupFirst))
  {
    if groups != [] {
      var init := groups[..|groups| - 1];
      SortKeysDistinct(init);
      SortPermutes(init, LatestGroupFirst);
      InsertKeysDistinct(Sort(init, LatestGroupFirst), groups[|groups| - 1]);
    }
  }

  /** No two groups share a key. */
  lemma GroupKeysDistinct(sessions: seq<Session>)
    ensures KeysDistinct(BuildGroups(sessions))
  {
    GroupedInhabited(sessions);
    GroupedMembers(sessions, "");
    var d := Grouped(sessions);
    forall i, j | 0 <= i < j < |d| ensures d[i].0 != d[j].0 {
      EarlierKeysDiffer(d, j);
    }
    SortKeysDistinct(MakeGroups(d));
  }

  /** Main result: every session is in exactly one group, the one of its thread. */
  lemma EachSessionInOneGroup(sessions: seq<Session>, s: Session)
    requires s in sessions
    ensures exists i :: 0 <= i < |BuildGroups(sessions)| && s in BuildGroups(sessions)[i].sessions
    ensures forall i, j :: 0 <= i < j < |BuildGroups(sessions)| ==>
      !(s in BuildGroups(sessions)[i].sessions && s in BuildGroups(sessions)[j].sessions)
  {
    GroupedInhabited(sessions);
    var groups := BuildGroups(sessions);
    var d := Grouped(sessions);
    var raw := MakeGroups(d);
    SortPermutes(raw, LatestGroupFirst);
    OfThreadMember(sessions, s.threadKey, s);
    GroupedMembers(sessions, s.threadKey);
    HasIndex(d, s.threadKey);
    var k :| 0 <= k < |d| && d[k].0 == s.threadKey;
    RawGroups(sessions, k);
    assert raw[k] in groups;
    assert s in multiset(OfThread(sessions, s.threadKey));
    assert s in raw[k].sessions;
    forall i, j | 0 <= i < j < |groups| ensures !(s in groups[i].sessions && s in groups[j].sessions) {
      GroupKeysDistinct(sessions);
      SessionHasGroupKey(sessions, groups[i], s);
      SessionHasGroupKey(sessions, groups[j], s);
    }
  }

  lemma SessionHasGroupKey(sessions: seq<Session>, g: Group, s: Session)
    requires g in BuildGroups(sessions)
    ensures s in g.sessions <==> s in sessions && s.threadKey == g.threadKey
  {
    GroupMember(sessions, g);
    OfThreadMember(sessions, g.threadKey, s);
    assert s in g.sessions <==> s in multiset(g.sessions);
    assert s in OfThread(sessions, g.threadKey) <==> s in multiset(OfThread(sessions, g.threadKey));
  }

  /** Every group holds its whole thread in chronological order, and the groups come in
      descending order of their last message. */
  lemma GroupsOrdered(sessions: seq<Session>)
    ensures Sorted(BuildGroups(sessions), LatestGroupFirst)
    ensures forall g :: g in BuildGroups(sessions) ==> WellFormed(g, OfThread(sessions, g.threadKey))
  {
    Preorders();
    GroupedInhabited(sessions);
    SortSorts(MakeGroups(Grouped(sessions)), LatestGroupFirst);
    forall g | g in BuildGroups(sessions) ensures WellFormed(g, OfThread(sessions, g.threadKey)) {
      GroupMember(sessions, g);
    }
  }

  // ----- the orders, on the sessions' own fields -----

  /** The instant by which a session is ordered: its creation, or its last message without one. */
  predicate CreatedOn(s: Session, at: int) {
    s.createdAt == Some(at) || (s.createdAt == None && s.lastMessageAt == at)
  }

  lemma CreatedOnIs(s: Session, at: int)
    ensures CreatedOn(s, at) <==> CreatedAt(s) == at
  {
  }

  /** Within a group sessions stand by creation, those created together by id. */
  lemma SessionsInOrder(sessions: seq<Session>, g: Group, i: nat, j: nat, x: int, y: int)
    requires g in BuildGroups(sessions) && i < j < |g.sessions|
    requires CreatedOn(g.sessions[i], x) && CreatedOn(g.sessions[j], y)
    ensures x < y || (x == y && g.sessions[i].idRank <= g.sessions[j].idRank)
  {
    GroupMember(sessions, g);
    CreatedOnIs(g.sessions[i], x);
    CreatedOnIs(g.sessions[j], y);
    assert Before(g.sessions[i], g.sessions[j]);
  }

  /** Groups stand by their last message, the latest first. */
  lemma GroupsInOrder(sessions: seq<Session>, i: nat, j: nat)
    requires i < j < |BuildGroups(sessions)|
    ensures BuildGroups(sessions)[i].lastMessageAt >= BuildGroups(sessions)[j].lastMessageAt
  {
    GroupsOrdered(sessions);
    assert LatestGroupFirst(BuildGroups(sessions)[i], BuildGroups(sessions)[j]);
  }

  lemma {:induction false} FirstTie(s: seq<Session>, x: Session) returns (i: nat)
    requires x in s
    ensures i < |s| && s[i].lastMessageAt == x.lastMessageAt
    ensures forall j :: 0 <= j < i ==> s[j].lastMessageAt != x.lastMessageAt
    ensures Ties(s, x, LaterFirst) != [] && Ties(s, x, LaterFirst)[0] == s[i]
  {
    var init, last := s[..|s| - 1], s[|s| - 1];
    if exists k :: 0 <= k < |init| && init[k].lastMessageAt == x.lastMessageAt {
      var k :| 0 <= k < |init| && init[k].lastMessageAt == x.lastMessageAt;
      i := FirstTie(init, init[k]);
      SameTies(init, init[k], x);
    } else {
      i := |init|;
      NoTies(init, x);
    }
  }

  lemma {:induction false} SameTies(s: seq<Session>, x: Session, y: Session)
    requires x.lastMessageAt == y.lastMessageAt
    ensures Ties(s, x, LaterFirst) == Ties(s, y, LaterFirst)
  {
    if s != [] {
      SameTies(s[..|s| - 1], x, y);
    }
  }

  lemma {:induction false} NoTies(s: seq<Session>, x: Session)
    requires forall k :: 0 <= k < |s| ==> s[k].lastMessageAt != x.lastMessageAt
    ensures Ties(s, x, LaterFirst) == []
  {
    if s != [] {
      NoTies(s[..|s| - 1], x);
    }
  }

  lemma HeadIsFirstMaximum(c: seq<Session>) returns (i: nat)
    requires c != []
    ensures i < |c| && c[i] == Sort(c, LaterFirst)[0]
    ensures forall j :: 0 <= j < |c| ==> c[j].lastMessageAt <= c[i].lastMessageAt
    ensures forall j :: 0 <= j < i ==> c[j].lastMessageAt != c[i].lastMessageAt
  {
    var l := Sort(c, LaterFirst);
    Preorders();
    SortPermutes(c, LaterFirst);
    SortStable(c, l[0], LaterFirst);
    assert l[0] in l;
    var k := FirstTie(l, l[0]);
    assert k == 0;
    i := FirstTie(c, l[0]);
    forall x | x in c ensures x.lastMessageAt <= l[0].lastMessageAt {
      HeadIsMaximum(c, x);
    }
  }

  lemma HeadIsMaximum(c: seq<Session>, x: Session)
    requires x in c
    ensures x.lastMessageAt <= Sort(c, LaterFirst)[0].lastMessageAt
  {
    var l := Sort(c, LaterFirst);
    Preorders();
    SortPermutes(c, LaterFirst);
    SortSorts(c, LaterFirst);
    assert x in l;
    var m :| 0 <= m < |l| && l[m] == x;
    assert m > 0 ==> LaterFirst(l[0], l[m]);
  }

  /** The latest session of a group is, of those with the last message, the first in the group. */
  lemma LatestIsFirstOfTies(sessions: seq<Session>, g: Group) returns (i: nat)
    requires g in BuildGroups(sessions)
    ensures i < |g.sessions| && g.sessions[i] == g.latest && g.lastMessageAt == g.latest.lastMessageAt
    ensures forall j :: 0 <= j < |g.sessions| ==> g.sessions[j].lastMessageAt <= g.latest.lastMessageAt
    ensures forall j :: 0 <= j < i ==> g.sessions[j].lastMessageAt < g.latest.lastMessageAt
  {
    LatestOfMade(sessions, g);
    i := HeadIsFirstMaximum(g.sessions);
  }

  lemma LatestOfMade(sessions: seq<Session>, g: Group)
    requires g in BuildGroups(sessions)
    ensures g.sessions != [] && g.latest == Sort(g.sessions, LaterFirst)[0] && g.lastMessageAt == g.latest.lastMessageAt
  {
    GroupedInhabited(sessions);
    var raw := MakeGroups(Grouped(sessions));
    SortPermutes(raw, LatestGroupFirst);
    var i :| 0 <= i < |raw| && raw[i] == g;
    SortPermutes(Grouped(sessions)[i].1, Before);
  }

  // ----- conservation -----

  function SumGroups(groups: seq<Group>): int {
    if groups == [] then 0 else SumGroups(groups[..|groups| - 1]) + groups[|groups| - 1].totalMessageCount
  }

  function SumThreads(d: Threads): nat
    decreases |d|
  {
    if d == [] then 0 else TotalMessages(d[0].1) + SumThreads(d[1..])
  }

  lemma {:induction false} PutAddsOne(d: Threads, s: Session)
    ensures SumThreads(Put(d, s.threadKey, Members(d, s.threadKey) + [s])) == SumThreads(d) + Messages(s)
    decreases |d|
  {
    var members := Members(d, s.threadKey);
    assert (members + [s])[..|members|] == members;
    assert TotalMessages(members + [s]) == TotalMessages(members) + Messages(s);
    var p := Put(d, s.threadKey, members + [s]);
    if d == [] {
      assert p[1..] == [];
    } else if d[0].0 != s.threadKey {
      PutAddsOne(d[1..], s);
      assert p[1..] == Put(d[1..], s.threadKey, members + [s]);
    } else {
      assert p[1..] == d[1..];
    }
  }

  lemma {:induction false} GroupedTotal(sessions: seq<Session>)
    ensures SumThreads(Grouped(sessions)) == TotalMessages(sessions)
  {
    if sessions != [] {
      GroupedTotal(sessions[..|sessions| - 1]);
      PutAddsOne(Grouped(sessions[..|sessions| - 1]), sessions[|sessions| - 1]);
    }
  }

  lemma {:induction false} InsertKeepsSum(groups: seq<Group>, g: Group)
    ensures SumGroups(Insert(groups, g, LatestGroupFirst)) == SumGroups(groups) + g.totalMessageCount
  {
    if groups == [] || LatestGroupFirst(groups[|groups| - 1], g) {
      assert (groups + [g])[..|groups|] == groups;
    } else {
      var r := Insert(groups[..|groups| - 1], g, LatestGroupFirst);
      InsertKeepsSum(groups[..|groups| - 1], g);
      assert (r + [groups[|groups| - 1]])[..|r|] == r;
    }
  }

  lemma {:induction false} SortKeepsSum(groups: seq<Group>)
    ensures SumGroups(Sort(groups, LatestGroupFirst)) == SumGroups(groups)
  {
    if groups != [] {
      SortKeepsSum(groups[..|groups| - 1]);
      InsertKeepsSum(Sort(groups[..|groups| - 1], LatestGroupFirst), groups[|groups| - 1]);
    }
  }

  lemma {:induction false} SumGroupsFront(g: Group, rest: seq<Group>)
    ensures SumGroups([g] + rest) == g.totalMessageCount + SumGroups(rest)
  {
    if rest == [] {
      assert [g] + rest == [g] && [g][..0] == [];
    } else {
      assert ([g] + rest)[..|rest|] == [g] + rest[..|rest| - 1];
      SumGroupsFront(g, rest[..|rest| - 1]);
    }
  }

  lemma MakeGroupsHead(d: Threads)
    requires AllInhabited(d) && d != [] && AllInhabited(d[1..])
    ensures MakeGroups(d) == [MakeGroup(d[0].0, d[0].1)] + MakeGroups(d[1..])
  {
    var rest := MakeGroups(d[1..]);
    forall i | 0 <= i < |rest| ensures MakeGroups(d)[i + 1] == rest[i] {
      assert d[1..][i] == d[i + 1];
    }
  }

  lemma {:induction false} MadeGroupsSum(d: Threads)
    requires AllInhabited(d)
    ensures SumGroups(MakeGroups(d)) == SumThreads(d)
    decreases |d|
  {
    if d != [] {
      assert AllInhabited(d[1..]) by {
        assert forall i :: 0 <= i < |d[1..]| ==> d[1..][i] == d[i + 1];
      }
      MadeGroupsSum(d[1..]);
      MakeGroupsHead(d);
      SumGroupsFront(MakeGroup(d[0].0, d[0].1), MakeGroups(d[1..]));
      MakeGroupWellFormed(d[0].0, d[0].1);
    }
  }

  /** Grouping neither loses nor invents messages. */
  lemma MessageCountConserved(sessions: seq<Session>)
    ensures SumGroups(BuildGroups(sessions)) == TotalMessages(sessions)
  {
    GroupedInhabited(sessions);
    SortKeepsSum(MakeGroups(Grouped(sessions)));
    MadeGroupsSum(Grouped(sessions));
    GroupedTotal(sessions);
  }

  /** Sessions whose count is not negative, and their counts added up. */
  function Counted(sessions: seq<Session>): seq<Session> {
    if sessions == [] then []
    else
      Counted(sessions[..|sessions| - 1])
      + if sessions[|sessions| - 1].messageCount >= 0 then [sessions[|sessions| - 1]] else []
  }

  function CountSum(sessions: seq<Session>): int {
    if sessions == [] then 0 else CountSum(sessions[..|sessions| - 1]) + sessions[|sessions| - 1].messageCount
  }

  lemma {:induction false} TotalIsCountSum(sessions: seq<Session>)
    ensures TotalMessages(sessions) == CountSum(Counted(sessions))
  {
    if sessions != [] {
      var init, last := sessions[..|sessions| - 1], sessions[|sessions| - 1];
      TotalIsCountSum(init);
      assert (Counted(init) + [last])[..|Counted(init)|] == Counted(init);
      assert Counted(init) + [] == Counted(init);
    }
  }

  /** The groups' totals add up to the plain sum of the sessions' counts, negative ones left out. */
  lemma GroupTotalsAddUp(sessions: seq<Session>)
    ensures SumGroups(BuildGroups(sessions)) == CountSum(Counted(sessions))
  {
    MessageCountConserved(sessions);
    TotalIsCountSum(sessions);
  }

  // ----- selection -----

  predicate Holds(g: Group, id: string) { exists i :: 0 <= i < |g.sessions| && g.sessions[i].id == id }

  /** `selectSessionThreadGroup`: the first group holding the id. */
  function Select(groups: seq<Group>, id: string): Option<Group> {
    if groups == [] then None else if Holds(groups[0], id) then Some(groups[0]) else Select(groups[1..], id)
  }

  lemma {:induction false} SelectFirst(groups: seq<Group>, id: string)
    ensures Select(groups, id).Some? <==> exists g :: g in groups && Holds(g, id)
    ensures Select(groups, id).Some? ==> Select(groups, id).value in groups && Holds(Select(groups, id).value, id)
  {
    if groups != [] {
      assert groups == [groups[0]] + groups[1..];
      SelectFirst(groups[1..], id);
    }
  }

  /** With distinct ids, selecting a session's id returns the one group that holds it. */
  lemma SelectionIsUnique(sessions: seq<Session>, s: Session)
    requires forall x, y :: x in sessions && y in sessions && x.id == y.id ==> x == y
    requires s in sessions
    ensures var r := Select(BuildGroups(sessions), s.id);
      r.Some? && s in r.value.sessions && r.value.threadKey == s.threadKey
      && forall g :: g in BuildGroups(sessions) && Holds(g, s.id) ==> g.threadKey == s.threadKey
  {
    var groups := BuildGroups(sessions);
    EachSessionInOneGroup(sessions, s);
    SelectFirst(groups, s.id);
    var i :| 0 <= i < |groups| && s in groups[i].sessions;
    var j :| 0 <= j < |groups[i].sessions| && groups[i].sessions[j] == s;
    assert Holds(groups[i], s.id);
    forall g | g in groups && Holds(g, s.id) ensures g.threadKey == s.threadKey && s in g.sessions {
      var k :| 0 <= k < |g.sessions| && g.sessions[k].id == s.id;
      SessionHasGroupKey(sessions, g, g.sessions[k]);
      SessionHasGroupKey(sessions, g, s);
    }
  }
}
