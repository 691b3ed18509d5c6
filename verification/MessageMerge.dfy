/** The console's `mergeMessages` and its algebra. */
module MessageMerge {
  import opened StableSort

  datatype Message = Message(id: string, createdAt: int, content: string)

  predicate Earlier(a: Message, b: Message) { a.createdAt <= b.createdAt }

  /** `Map.set` on a map from ids to messages, as the list of its values. */
  function SetById(entries: seq<Message>, m: Message): seq<Message> {
    if entries == [] then [m]
    else if entries[0].id == m.id then [m] + entries[1..]
    else [entries[0]] + SetById(entries[1..], m)
  }

  function Collect(messages: seq<Message>): seq<Message> {
    if messages == [] then []
    else SetById(Collect(messages[..|messages| - 1]), messages[|messages| - 1])
  }

  function Merge(current: seq<Message>, incoming: seq<Message>): seq<Message> {
    if incoming == [] then current else Sort(Collect(current + incoming), Earlier)
  }

  lemma CollectNext(before: seq<Message>, messages: seq<Message>, n: nat)
    requires n < |messages|
    ensures Collect(before + messages[..n + 1]) == SetById(Collect(before + messages[..n]), messages[n])
  {
    var all := before + messages[..n + 1];
    assert all[..|all| - 1] == before + messages[..n];
  }

  /** One loop of `map.set`, on a map that already holds the messages `before`. */
  method SetAll(ghost before: seq<Message>, map': seq<Message>, messages: seq<Message>) returns (merged: seq<Message>)
    requires map' == Collect(before)
    ensures merged == Collect(before + messages)
  {
    merged := map';
    assert before + messages[..0] == before;
    for n := 0 to |messages|
      invariant merged == Collect(before + messages[..n])
    {
      CollectNext(before, messages, n);
      merged := SetById(merged, messages[n]);
    }
    assert messages[..|messages|] == messages;
  }

  method MergeMessages(current: seq<Message>, incoming: seq<Message>) returns (result: seq<Message>)
    ensures result == Merge(current, incoming)
  {
    if |incoming| == 0 {
      return current;
    }
    var merged := SetAll([], [], current);
    assert [] + current == current;
    merged := SetAll(current, merged, incoming);
    result := Sort(merged, Earlier);
  }

  // ----- what a merge contains -----

  ghost predicate IdDistinct(s: seq<Message>) { forall i, j :: 0 <= i < j < |s| ==> s[i].id != s[j].id }

  predicate HasId(s: seq<Message>, id: string) { exists i :: 0 <= i < |s| && s[i].id == id }

  lemma {:induction false} SetByIdSpec(entries: seq<Message>, m: Message, x: Message)
    requires IdDistinct(entries)
    ensures x in SetById(entries, m) <==> x == m || (x in entries && x.id != m.id)
    ensures IdDistinct(SetById(entries, m))
  {
    if entries != [] {
      var e, rest := entries[0], entries[1..];
      assert entries == [e] + rest;
      assert forall i :: 0 <= i < |rest| ==> rest[i] == entries[i + 1] && rest[i].id != e.id;
      if e.id != m.id {
        SetByIdSpec(rest, m, x);
        forall i | 0 <= i < |SetById(rest, m)| ensures SetById(rest, m)[i].id != e.id {
          SetByIdSpec(rest, m, SetById(rest, m)[i]);
        }
      }
    }
  }

  lemma {:induction false} CollectDistinct(s: seq<Message>)
    ensures IdDistinct(Collect(s))
  {
    if s != [] {
      CollectDistinct(s[..|s| - 1]);
      SetByIdSpec(Collect(s[..|s| - 1]), s[|s| - 1], s[|s| - 1]);
    }
  }

  lemma {:induction false} CollectFixed(s: seq<Message>)
    requires IdDistinct(s)
    ensures Collect(s) == s
  {
    if s != [] {
      var init, last := s[..|s| - 1], s[|s| - 1];
      CollectFixed(init);
      SetByIdFresh(init, last);
      assert s == init + [last];
    }
  }

  lemma {:induction false} SetByIdFresh(entries: seq<Message>, m: Message)
    requires !HasId(entries, m.id)
    ensures SetById(entries, m) == entries + [m]
  {
    if entries != [] {
      assert entries[0].id != m.id;
      assert forall i :: 0 <= i < |entries[1..]| ==> entries[1..][i] == entries[i + 1];
      SetByIdFresh(entries[1..], m);
      assert entries == [entries[0]] + entries[1..];
    }
  }

  /** Later messages win over earlier ones with the same id. */
  lemma {:induction false} CollectAfter(a: seq<Message>, b: seq<Message>, x: Message)
    requires IdDistinct(a) && IdDistinct(b)
    ensures x in Collect(a + b) <==> x in b || (x in a && !HasId(b, x.id))
  {
    if b == [] {
      assert a + b == a;
      CollectFixed(a);
    } else {
      var init, last := b[..|b| - 1], b[|b| - 1];
      assert (a + b)[..|a + b| - 1] == a + init;
      CollectAfter(a, init, x);
      CollectDistinct(a + init);
      SetByIdSpec(Collect(a + init), last, x);
      assert b == init + [last];
      assert HasId(b, x.id) <==> HasId(init, x.id) || last.id == x.id by {
        assert forall i :: 0 <= i < |init| ==> init[i] == b[i];
        assert b[|b| - 1] == last;
      }
    }
  }

  lemma EarlierIsPreorder()
    ensures TotalPreorder(Earlier)
  {
  }

  ghost predicate Ordered(s: seq<Message>) { Sorted(s, Earlier) && IdDistinct(s) }

  lemma SortKeepsDistinct(s: seq<Message>)
    requires IdDistinct(s)
    ensures IdDistinct(Sort(s, Earlier))
  {
    var t := Sort(s, Earlier);
    SortPermutes(s, Earlier);
    forall i, j | 0 <= i < j < |t| ensures t[i].id != t[j].id {
      if t[i].id == t[j].id {
        assert t[i] in s && t[j] in s;
        assert t[i] == t[j];
        DistinctOnce(s, t[i]);
        OccursTwice(t, i, j);
        assert false;
      }
    }
  }

  lemma {:induction false} DistinctOnce(s: seq<Message>, x: Message)
    requires IdDistinct(s)
    ensures multiset(s)[x] <= 1
  {
    if s != [] {
      DistinctOnce(s[1..], x);
      assert s == [s[0]] + s[1..];
      if x == s[0] {
        assert x !in s[1..];
      }
    }
  }

  lemma OccursTwice(t: seq<Message>, i: nat, j: nat)
    requires i < j < |t| && t[i] == t[j]
    ensures multiset(t)[t[i]] >= 2
  {
    assert t == t[..i] + [t[i]] + t[i + 1..j] + [t[j]] + t[j + 1..];
  }

  /** Main result: merging ordered lists gives an ordered list that holds every incoming message
      and exactly the current ones whose id is not among them. */
  lemma MergeContents(a: seq<Message>, b: seq<Message>, x: Message)
    requires Ordered(a) && Ordered(b)
    ensures Ordered(Merge(a, b))
    ensures x in Merge(a, b) <==> x in b || (x in a && !HasId(b, x.id))
  {
    if b != [] {
      var c := Collect(a + b);
      CollectDistinct(a + b);
      CollectAfter(a, b, x);
      EarlierIsPreorder();
      SortSorts(c, Earlier);
      SortKeepsDistinct(c);
      SortPermutes(c, Earlier);
    }
  }

  /** The ids of a merge are the union of the ids. */
  lemma MergeIds(a: seq<Message>, b: seq<Message>, id: string)
    requires Ordered(a) && Ordered(b)
    ensures HasId(Merge(a, b), id) <==> HasId(a, id) || HasId(b, id)
  {
    var m := Merge(a, b);
    if HasId(m, id) {
      var i :| 0 <= i < |m| && m[i].id == id;
      MergeContents(a, b, m[i]);
    }
    if HasId(b, id) {
      var i :| 0 <= i < |b| && b[i].id == id;
      MergeContents(a, b, b[i]);
      assert b[i] in m;
    } else if HasId(a, id) {
      var i :| 0 <= i < |a| && a[i].id == id;
      MergeContents(a, b, a[i]);
      assert a[i] in m;
    }
  }

  lemma {:induction false} SetByIdPresent(entries: seq<Message>, m: Message)
    requires IdDistinct(entries) && m in entries
    ensures SetById(entries, m) == entries
  {
    assert entries == [entries[0]] + entries[1..];
    if entries[0].id != m.id {
      assert forall i :: 0 <= i < |entries[1..]| ==> entries[1..][i] == entries[i + 1];
      SetByIdPresent(entries[1..], m);
    } else {
      assert entries[0] == m;
    }
  }

  lemma {:induction false} CollectPresent(s: seq<Message>, b: seq<Message>)
    requires IdDistinct(s) && forall m :: m in b ==> m in s
    ensures Collect(s + b) == s
  {
    if b == [] {
      assert s + b == s;
      CollectFixed(s);
    } else {
      var init, last := b[..|b| - 1], b[|b| - 1];
      assert (s + b)[..|s + b| - 1] == s + init;
      CollectPresent(s, init);
      SetByIdPresent(s, last);
    }
  }

  /** Merging the same batch again changes nothing. */
  lemma MergeIdempotent(a: seq<Message>, b: seq<Message>)
    requires Ordered(a) && Ordered(b)
    ensures Merge(Merge(a, b), b) == Merge(a, b)
  {
    if b != [] {
      var m := Merge(a, b);
      forall x | x in b ensures x in m {
        MergeContents(a, b, x);
      }
      MergeContents(a, b, b[0]);
      CollectPresent(m, b);
      SortFixesSorted(m, Earlier);
    }
  }

  /** Merging messages that are all there already changes nothing, ties in time included. */
  lemma MergeOfKnown(a: seq<Message>, b: seq<Message>)
    requires Ordered(a) && forall m :: m in b ==> m in a
    ensures Merge(a, b) == a
  {
    CollectPresent(a, b);
    SortFixesSorted(a, Earlier);
  }

  // ----- immutable messages with distinct timestamps -----

  ghost predicate StrictlyOrdered(s: seq<Message>) {
    forall i, j :: 0 <= i < j < |s| ==> s[i].createdAt < s[j].createdAt && s[i].id != s[j].id
  }

  /** Two lists of the same immutable messages: an id or a timestamp names one message. */
  ghost predicate Compatible(a: seq<Message>, b: seq<Message>) {
    forall x, y :: x in a && y in b && (x.id == y.id || x.createdAt == y.createdAt) ==> x == y
  }

  lemma MembersInBoth(s: seq<Message>, t: seq<Message>)
    requires forall x :: x in s <==> x in t
    ensures t != [] ==> s != []
  {
    if t != [] {
      assert t[0] in s;
    }
  }

  lemma FirstIsEarliest(s: seq<Message>, t: seq<Message>)
    requires StrictlyOrdered(s) && StrictlyOrdered(t) && s != []
    requires forall x :: x in s <==> x in t
    ensures t != [] && s[0] == t[0]
  {
    assert s[0] in t;
    assert t[0] in s;
    assert forall i :: 0 < i < |s| ==> s[0].createdAt < s[i].createdAt;
    assert forall i :: 0 < i < |t| ==> t[0].createdAt < t[i].createdAt;
  }

  lemma TailMember(s: seq<Message>, x: Message)
    requires StrictlyOrdered(s) && s != []
    ensures x in s[1..] <==> x in s && x != s[0]
  {
    assert s == [s[0]] + s[1..];
  }

  /** A strictly ordered list is determined by its members. */
  lemma {:induction false} StrictUnique(s: seq<Message>, t: seq<Message>)
    requires StrictlyOrdered(s) && StrictlyOrdered(t)
    requires forall x :: x in s <==> x in t
    ensures s == t
  {
    MembersInBoth(s, t);
    if s != [] {
      FirstIsEarliest(s, t);
      forall x ensures x in s[1..] <==> x in t[1..] {
        TailMember(s, x);
        TailMember(t, x);
      }
      StrictUnique(s[1..], t[1..]);
      assert s == [s[0]] + s[1..] && t == [t[0]] + t[1..];
    }
  }

  lemma MergeUnion(a: seq<Message>, b: seq<Message>)
    requires StrictlyOrdered(a) && StrictlyOrdered(b) && Compatible(a, b)
    ensures StrictlyOrdered(Merge(a, b))
    ensures forall x :: x in Merge(a, b) <==> x in a || x in b
  {
    var m := Merge(a, b);
    forall x ensures x in m <==> x in a || x in b {
      MergeContents(a, b, x);
      if x in a && HasId(b, x.id) {
        var i :| 0 <= i < |b| && b[i].id == x.id;
        assert b[i] in b;
      }
    }
    MergeContents(a, b, Message("", 0, ""));
    forall x, y | x in m && y in m && x.createdAt == y.createdAt ensures x == y {
      SameStamp(a, b, x, y);
    }
    StrictFromSorted(m);
  }

  lemma StrictFromSorted(m: seq<Message>)
    requires Ordered(m)
    requires forall x, y :: x in m && y in m && x.createdAt == y.createdAt ==> x == y
    ensures StrictlyOrdered(m)
  {
    forall i, j | 0 <= i < j < |m| ensures m[i].createdAt < m[j].createdAt && m[i].id != m[j].id {
      assert m[i] in m && m[j] in m && Earlier(m[i], m[j]);
    }
  }

  lemma SameStamp(a: seq<Message>, b: seq<Message>, x: Message, y: Message)
    requires StrictlyOrdered(a) && StrictlyOrdered(b) && Compatible(a, b)
    requires (x in a || x in b) && (y in a || y in b) && x.createdAt == y.createdAt
    ensures x == y
  {
  }

  /** On immutable messages the order of merging does not matter. */
  lemma MergeCommutes(a: seq<Message>, b: seq<Message>)
    requires StrictlyOrdered(a) && StrictlyOrdered(b) && Compatible(a, b)
    ensures Merge(a, b) == Merge(b, a)
  {
    MergeUnion(a, b);
    MergeUnion(b, a);
    StrictUnique(Merge(a, b), Merge(b, a));
  }

  lemma MergeAssociates(a: seq<Message>, b: seq<Message>, c: seq<Message>)
    requires StrictlyOrdered(a) && StrictlyOrdered(b) && StrictlyOrdered(c)
    requires Compatible(a, b) && Compatible(a, c) && Compatible(b, c)
    ensures Merge(Merge(a, b), c) == Merge(a, Merge(b, c))
  {
    MergeUnion(a, b);
    MergeUnion(b, c);
    MergeUnion(Merge(a, b), c);
    MergeUnion(a, Merge(b, c));
    StrictUnique(Merge(Merge(a, b), c), Merge(a, Merge(b, c)));
  }

  // ----- slices of a transcript -----

  function Min(a: int, b: int): int { if a <= b then a else b }

  function Max(a: int, b: int): int { if a >= b then a else b }

  lemma SliceMember(t: seq<Message>, lo: nat, hi: nat, m: Message)
    requires lo <= hi <= |t|
    ensures m in t[lo..hi] <==> exists k :: lo <= k < hi && t[k] == m
  {
    var x := t[lo..hi];
    if m in x {
      var i :| 0 <= i < |x| && x[i] == m;
      assert t[lo + i] == m;
    }
    if k :| lo <= k < hi && t[k] == m {
      assert x[k - lo] == m;
    }
  }

  /** Two slices of one transcript that overlap or touch merge into the slice they span. */
  lemma MergeSlices(t: seq<Message>, lo: nat, hi: nat, a: nat, b: nat)
    requires StrictlyOrdered(t) && lo <= hi <= |t| && a <= b <= |t|
    requires a <= hi && lo <= b
    ensures Merge(t[lo..hi], t[a..b]) == t[Min(lo, a)..Max(hi, b)]
  {
    var x, y, z := t[lo..hi], t[a..b], t[Min(lo, a)..Max(hi, b)];
    forall m ensures m in z <==> m in x || m in y {
      SliceMember(t, lo, hi, m);
      SliceMember(t, a, b, m);
      SliceMember(t, Min(lo, a), Max(hi, b), m);
    }
    SlicesCompatible(t, lo, hi, a, b);
    SlicesCompatible(t, Min(lo, a), Max(hi, b), a, b);
    MergeUnion(x, y);
    StrictUnique(Merge(x, y), z);
  }

  lemma SlicesCompatible(t: seq<Message>, lo: nat, hi: nat, a: nat, b: nat)
    requires StrictlyOrdered(t) && lo <= hi <= |t| && a <= b <= |t|
    ensures StrictlyOrdered(t[lo..hi]) && StrictlyOrdered(t[a..b]) && Compatible(t[lo..hi], t[a..b])
  {
    forall x, y | x in t[lo..hi] && y in t[a..b] && (x.id == y.id || x.createdAt == y.createdAt) ensures x == y {
      SliceMember(t, lo, hi, x);
      SliceMember(t, a, b, y);
    }
  }
}
