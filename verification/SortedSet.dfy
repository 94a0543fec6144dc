/** One sorted set: a map from member to score and a skip list over the same pairs. */
module SortedSets {
  import opened Ordering
  import opened SkipLists
  import opened Collections

  // ----- what the operations mean on the map -----

  /** The pairs of the sequence are exactly the entries of the map. */
  ghost predicate Agree(dict: map<Bytes, Score>, s: seq<Pair>)
  {
    && (forall p :: p in s ==> p.ele in dict && dict[p.ele] == p.score)
    && (forall m :: m in dict ==> Pair(dict[m], m) in s)
  }

  /** A member has one pair. */
  lemma DifferentMembers(dict: map<Bytes, Score>, s: seq<Pair>)
    requires Sorted(s) && Agree(dict, s)
    ensures Distinct(s)
  {
    forall i, j | 0 <= i < j < |s| ensures s[i].ele != s[j].ele {
      assert s[i] in s && s[j] in s && Less(s[i], s[j]);
      Trichotomy(s[i], s[j]);
    }
  }

  /** The sorted sequence of a map is determined by the map. */
  lemma AgreeDetermines(dict: map<Bytes, Score>, s: seq<Pair>, t: seq<Pair>)
    requires Sorted(s) && Sorted(t) && Agree(dict, s) && Agree(dict, t)
    ensures s == t
  {
    forall p ensures p in s <==> p in t {
      if p in s { assert Pair(dict[p.ele], p.ele) in t; }
      if p in t { assert Pair(dict[p.ele], p.ele) in s; }
    }
    SortedUnique(s, t);
  }

  /** As many pairs as entries. */
  lemma AgreeSize(dict: map<Bytes, Score>, s: seq<Pair>)
    requires Sorted(s) && Agree(dict, s)
    ensures |s| == |dict|
  {
    forall i, j | 0 <= i < j < |s| ensures s[i].ele != s[j].ele {
      Trichotomy(s[i], s[j]);
      assert s[i] in s && s[j] in s;
    }
    NamesSize(s);
    assert dict.Keys == Names(s);
  }

  ghost function Names(s: seq<Pair>): set<Bytes>
  {
    set p | p in s :: p.ele
  }

  lemma {:induction false} NamesSize(s: seq<Pair>)
    requires forall i, j :: 0 <= i < j < |s| ==> s[i].ele != s[j].ele
    ensures |Names(s)| == |s|
  {
    if s != [] {
      var n := |s| - 1;
      NamesSize(s[..n]);
      Snoc(s);
      assert Names(s) == Names(s[..n]) + {s[n].ele};
    }
  }

  /** Members set in order, so that a repeated member keeps its last score. */
  function Added(dict: map<Bytes, Score>, members: seq<Pair>): map<Bytes, Score>
  {
    if members == [] then dict
    else
      var last := |members| - 1;
      Added(dict, members[..last])[members[last].ele := members[last].score]
  }

  lemma {:induction false} AddedToNone(s: seq<Pair>)
    ensures forall m :: m in Added(map[], s) ==> Pair(Added(map[], s)[m], m) in s
    ensures forall p :: p in s ==> p.ele in Added(map[], s)
  {
    if s != [] {
      AddedToNone(s[..|s| - 1]);
      assert s == s[..|s| - 1] + [s[|s| - 1]];
    }
  }

  /** Adding the pairs of a map, in any order, to an empty one gives the map back. */
  lemma AddedPairs(dict: map<Bytes, Score>, s: seq<Pair>)
    requires Agree(dict, s)
    ensures Added(map[], s) == dict
  {
    AddedToNone(s);
  }

  lemma AgreeInserted(dict: map<Bytes, Score>, s: seq<Pair>, p: Pair)
    requires Sorted(s) && Agree(dict, s) && p.ele !in dict
    ensures p !in s && Agree(dict[p.ele := p.score], Inserted(s, p))
  {
    assert p !in s;
    InsertedSorted(s, p);
  }

  lemma AgreeRemoved(dict: map<Bytes, Score>, s: seq<Pair>, m: Bytes)
    requires Sorted(s) && Agree(dict, s) && m in dict
    ensures Pair(dict[m], m) in s && Agree(dict - {m}, Removed(s, Pair(dict[m], m)))
  {
    RemovedSorted(s, Pair(dict[m], m));
  }

  function Members(s: seq<Pair>): (r: seq<Bytes>)
    ensures |r| == |s|
  {
    seq(|s|, i requires 0 <= i < |s| => s[i].ele)
  }

  lemma PoppedFromTail(s: seq<Pair>, limit: nat)
    requires Sorted(s) && limit <= |s|
    ensures var popped := Reversed(s)[..limit];
      && (forall i :: 0 <= i < limit ==> popped[i] in s)
      && (forall i, j :: 0 <= i < j < limit ==> popped[i] != popped[j])
      && (forall m :: m in Elements(Members(popped)) <==> exists i :: |s| - limit <= i < |s| && s[i].ele == m)
  {
    var popped := Reversed(s)[..limit];
    forall i, j | 0 <= i < j < limit ensures popped[i] != popped[j] {
      assert Less(s[|s| - 1 - j], s[|s| - 1 - i]);
      Trichotomy(popped[i], popped[j]);
    }
    forall m ensures m in Elements(Members(popped)) <==> exists i :: |s| - limit <= i < |s| && s[i].ele == m {
      if i :| 0 <= i < limit && Members(popped)[i] == m {
        assert s[|s| - 1 - i].ele == m;
      }
      if i :| |s| - limit <= i < |s| && s[i].ele == m {
        assert Members(popped)[|s| - 1 - i] == m;
      }
    }
  }

  lemma PoppedFromHead(s: seq<Pair>, limit: nat)
    requires Sorted(s) && limit <= |s|
    ensures var popped := s[..limit];
      && (forall i :: 0 <= i < limit ==> popped[i] in s)
      && (forall i, j :: 0 <= i < j < limit ==> popped[i] != popped[j])
      && (forall m :: m in Elements(Members(popped)) <==> exists i :: 0 <= i < limit && s[i].ele == m)
  {
    var popped := s[..limit];
    forall i, j | 0 <= i < j < limit ensures popped[i] != popped[j] {
      assert Less(s[i], s[j]);
      Trichotomy(s[i], s[j]);
    }
    forall m ensures m in Elements(Members(popped)) <==> exists i :: 0 <= i < limit && s[i].ele == m {
      if i :| 0 <= i < limit && s[i].ele == m {
        assert Members(popped)[i] == m;
      }
    }
  }

  /** Without the members of one run of the sequence, what is before and after the run is left. */
  lemma RunRemoved(dict: map<Bytes, Score>, s: seq<Pair>, a: nat, b: nat, gone: set<Bytes>)
    requires Sorted(s) && Agree(dict, s) && a <= b <= |s|
    requires forall m :: m in gone <==> exists i :: a <= i < b && s[i].ele == m
    ensures Sorted(s[..a] + s[b..]) && Agree(dict - gone, s[..a] + s[b..])
  {
    hide Less, Sorted, Distinct;
    var t := s[..a] + s[b..];
    CutSorted(s, a, b);
    forall p | p in t ensures p.ele in dict - gone && (dict - gone)[p.ele] == p.score {
      var j :| 0 <= j < |t| && t[j] == p;
      LeftOver(dict, s, a, b, gone, if j < a then j else j + (b - a));
    }
    forall m | m in dict - gone ensures Pair(dict[m], m) in t {
      var i :| 0 <= i < |s| && s[i] == Pair(dict[m], m);
      assert !(a <= i < b);
      assert s[i] == t[if i < a then i else i - (b - a)];
    }
  }

  lemma CutSorted(s: seq<Pair>, a: nat, b: nat)
    requires Sorted(s) && a <= b <= |s|
    ensures Sorted(s[..a] + s[b..])
  {
    hide Less;
  }

  lemma LeftOver(dict: map<Bytes, Score>, s: seq<Pair>, a: nat, b: nat, gone: set<Bytes>, i: nat)
    requires Sorted(s) && Agree(dict, s) && a <= b <= |s|
    requires forall m :: m in gone <==> exists i :: a <= i < b && s[i].ele == m
    requires i < |s| && !(a <= i < b)
    ensures s[i].ele in dict - gone && (dict - gone)[s[i].ele] == s[i].score
  {
    hide Less, Sorted;
    DifferentMembers(dict, s);
    assert s[i] in s;
  }

  // ----- what the queries mean on the sorted sequence -----

  ghost function Run<T>(s: seq<T>, a: nat, b: nat): seq<T>
    requires b <= |s|
  {
    if a <= b then s[a..b] else []
  }

  /** The pairs with a score in the closed range, in order. */
  ghost function InRange(s: seq<Pair>, min: Score, max: Score): seq<Pair>
  {
    if s == [] then []
    else (if min <= s[0].score <= max then [s[0]] else []) + InRange(s[1..], min, max)
  }

  lemma {:induction false} InRangeNone(s: seq<Pair>, min: Score, max: Score)
    requires forall p :: p in s ==> !(min <= p.score <= max)
    ensures InRange(s, min, max) == []
  {
    if s != [] {
      assert s[0] in s;
      InRangeNone(s[1..], min, max);
    }
  }

  /** In a sorted sequence the score range is one slice, between the two cuts. */
  lemma {:induction false} InRangeIsSlice(s: seq<Pair>, min: Score, max: Score)
    requires Sorted(s)
    ensures var a, b := Passing(s, BelowScore(min)), Passing(s, ThroughScore(max));
      InRange(s, min, max) == Run(s, a, b)
  {
    var a, b := Passing(s, BelowScore(min)), Passing(s, ThroughScore(max));
    PassingSorted(s, BelowScore(min));
    PassingSorted(s, ThroughScore(max));
    if s != [] {
      InRangeIsSlice(s[1..], min, max);
      if a <= b && a == 0 && b > 0 {
        assert s[0..b] == [s[0]] + s[1..][0..b - 1];
      } else if a == 0 {
        InRangeNone(s, min, max);
      } else if b == 0 {
        InRangeNone(s, min, max);
      } else if a <= b {
        assert s[a..b] == s[1..][a - 1..b - 1];
      }
    }
  }

  /** Drop `offset`, then take `count`; a count that is not positive is no limit. */
  ghost function Limit(s: seq<Pair>, offset: int, count: int): seq<Pair>
  {
    var rest := if offset <= 0 then s else if offset <= |s| then s[offset..] else [];
    if 0 < count <= |rest| then rest[..count] else rest
  }

  /** The positions from the offset on, `count` of them unless the count is not positive. */
  lemma LimitMeans(s: seq<Pair>, offset: int, count: int) returns (lo: nat, hi: nat)
    ensures lo <= hi <= |s| && Limit(s, offset, count) == s[lo..hi]
    ensures forall p {:trigger s[p]} :: 0 <= p < |s| ==> (
      lo <= p < hi <==> offset <= p && (count > 0 ==> p < (if offset < 0 then 0 else offset) + count))
  {
    lo := if offset <= 0 then 0 else if offset <= |s| then offset else |s|;
    hi := if 0 < count <= |s| - lo then lo + count else |s|;
  }

  /** What a loop collects that stops at the end of the run, or earlier when it has `count` pairs. */
  lemma RunCut(s: seq<Pair>, a: nat, b: nat, count: int, res: seq<Pair>)
    requires a <= |s| && b <= |s| && a + |res| <= |s| && res == s[a..a + |res|]
    requires (count > 0 && |res| == count && a + |res| <= b)
          || ((count > 0 ==> |res| < count) && (a + |res| == b || (|res| == 0 && b <= a)))
    ensures res == Limit(Run(s, a, b), 0, count)
  {
  }

  lemma ThroughSplits(s: seq<Pair>, max: Score)
    requires Sorted(s)
    ensures forall i :: 0 <= i < |s| ==> (i < Passing(s, ThroughScore(max)) <==> s[i].score <= max)
    ensures Passing(s, ThroughScore(max)) <= |s|
  {
    PassingSorted(s, ThroughScore(max));
  }

  /** The score range is the run between the two cuts, and skipping `offset` of it starts the run later. */
  lemma ScoreRangeIsRun(s: seq<Pair>, min: Score, max: Score, offset: int, count: int)
    requires Sorted(s)
    ensures var a, b := Passing(s, BelowScore(min)), Passing(s, ThroughScore(max));
      && a <= |s| && b <= |s|
      && (a == |s| || s[a].score > max ==> Limit(InRange(s, min, max), offset, count) == [])
      && var q := if offset <= 0 then a else if a + offset <= |s| then a + offset else |s|;
         Limit(InRange(s, min, max), offset, count) == Limit(Run(s, q, b), 0, count)
  {
    hide *;
    var a, b := Passing(s, BelowScore(min)), Passing(s, ThroughScore(max));
    InRangeIsSlice(s, min, max);
    ThroughSplits(s, max);
    RunSkips(s, a, b, offset, count);
  }

  lemma RunSkips(s: seq<Pair>, a: nat, b: nat, offset: int, count: int)
    requires a <= |s| && b <= |s|
    ensures var q := if offset <= 0 then a else if a + offset <= |s| then a + offset else |s|;
      Limit(Run(s, a, b), offset, count) == Limit(Run(s, q, b), 0, count)
    ensures b <= a ==> Limit(Run(s, a, b), offset, count) == []
  {
    var q := if offset <= 0 then a else if a + offset <= |s| then a + offset else |s|;
    if 0 < offset <= |Run(s, a, b)| {
      assert Run(s, a, b)[offset..] == Run(s, q, b);
    }
  }

  lemma RunReversed<T>(s: seq<T>, a: nat, b: nat)
    requires a <= |s| && b <= |s|
    ensures Reversed(Run(s, a, b)) == Run(Reversed(s), |s| - b, |s| - a)
  {
  }

  lemma BelowSplitsReversed(s: seq<Pair>, min: Score)
    requires Sorted(s)
    ensures Passing(s, BelowScore(min)) <= |s|
    ensures forall j :: 0 <= j < |s| ==> (j < |s| - Passing(s, BelowScore(min)) <==> Reversed(s)[j].score >= min)
  {
    PassingSorted(s, BelowScore(min));
  }

  lemma ScoreRangeReversed(s: seq<Pair>, min: Score, max: Score, offset: int, count: int)
    requires Sorted(s)
    ensures var n, a, b := |s|, Passing(s, BelowScore(min)), Passing(s, ThroughScore(max));
      && a <= n && b <= n
      && (b == 0 || Reversed(s)[n - b].score < min ==> Limit(Reversed(InRange(s, min, max)), offset, count) == [])
      && var k := if offset <= 0 then n - b else if n - b + offset <= n then n - b + offset else n;
         Limit(Reversed(InRange(s, min, max)), offset, count) == Limit(Run(Reversed(s), k, n - a), 0, count)
  {
    hide *;
    var n, a, b := |s|, Passing(s, BelowScore(min)), Passing(s, ThroughScore(max));
    InRangeIsSlice(s, min, max);
    BelowSplitsReversed(s, min);
    ThroughSplits(s, max);
    RunReversed(s, a, b);
    RunSkips(Reversed(s), n - b, n - a, offset, count);
  }

  class SortedSet {
    var dict: map<Bytes, Score>
    const zsl: SkipList

    ghost function Repr(): (r: set<object>)
      reads this, zsl
      ensures this in r && zsl in r
    {
      {this, zsl} + set n | n in zsl.nodes
    }

    ghost predicate Valid()
      reads this, zsl, zsl.nodes
    {
      zsl.Valid() && Agree(dict, zsl.Contents())
    }

    ghost function Pairs(): (s: seq<Pair>)
      requires Valid()
      reads this, zsl, zsl.nodes
      ensures Sorted(s)
    {
      zsl.Contents()
    }

    constructor (ghost home: Bytes)
      ensures Valid() && fresh(Repr()) && dict == map[] && zsl.home == home
    {
      dict := map[];
      zsl := new SkipList(home);
    }

    /** Puts an absent member into both structures. */
    method Put(m: Pair)
      requires Valid() && m.ele !in dict
      modifies Repr()
      ensures Valid() && fresh(Repr() - old(Repr()))
      ensures dict == old(dict)[m.ele := m.score]
    {
      hide SkipList.Valid, SkipList.Contents, Agree, Inserted;
      AgreeInserted(dict, zsl.Contents(), m);
      var x := zsl.Insert(m.score, m.ele);
      dict := dict[m.ele := m.score];
    }

    /** Takes a present member out of both structures. */
    method Drop(m: Bytes)
      requires Valid() && m in dict
      modifies Repr()
      ensures Valid() && Repr() <= old(Repr())
      ensures dict == old(dict) - {m}
      ensures Pairs() == Removed(old(Pairs()), Pair(old(dict)[m], m))
    {
      hide SkipList.Valid, SkipList.Contents, Agree, Removed;
      AgreeRemoved(dict, zsl.Contents(), m);
      var found := zsl.Delete(dict[m], m);
      dict := dict - {m};
    }

    /** One round of ZADD's loop. */
    method Set(m: Pair) returns (isNew: bool)
      requires Valid()
      modifies Repr()
      ensures Valid() && fresh(Repr() - old(Repr()))
      ensures dict == old(dict)[m.ele := m.score] && (isNew <==> m.ele !in old(dict))
    {
      hide SkipList.Valid, Valid;
      isNew := m.ele !in dict;
      if m.ele in dict {
        if dict[m.ele] == m.score {
          assert dict == dict[m.ele := m.score];
          return;
        }
        Drop(m.ele);
      }
      Put(m);
      assert dict == old(dict)[m.ele := m.score];
    }

    method Add(members: seq<Pair>) returns (added: nat)
      requires Valid()
      modifies Repr()
      ensures Valid() && fresh(Repr() - old(Repr()))
      ensures dict == Added(old(dict), members)
      ensures added == |dict| - |old(dict)|
    {
      hide SkipList.Valid, Valid;
      added := 0;
      var i := 0;
      while i < |members|
        invariant 0 <= i <= |members|
        invariant Valid() && fresh(Repr() - old(Repr()))
        invariant dict == Added(old(dict), members[..i])
        invariant |dict| == |old(dict)| + added
      {
        ghost var before := dict;
        var isNew := Set(members[i]);
        assert members[..i + 1][..i] == members[..i];
        assert dict.Keys == before.Keys + {members[i].ele};
        added := if isNew then added + 1 else added;
        i := i + 1;
      }
      assert members[..i] == members;
    }

    method Remove(members: seq<Bytes>) returns (removed: nat)
      requires Valid()
      modifies Repr()
      ensures Valid() && Repr() <= old(Repr())
      ensures dict == old(dict) - Elements(members)
      ensures removed == |old(dict)| - |dict|
    {
      hide SkipList.Valid, Valid, Pairs, Elements;
      removed := 0;
      MinusNone(dict, members);
      var i := 0;
      while i < |members|
        invariant 0 <= i <= |members|
        invariant Valid() && Repr() <= old(Repr())
        invariant dict == old(dict) - Elements(members[..i])
        invariant |old(dict)| == |dict| + removed
      {
        MinusNext(old(dict), members, i);
        if members[i] in dict {
          Drop(members[i]);
          removed := removed + 1;
        }
        i := i + 1;
      }
      assert members[..i] == members;
    }

    method IncrBy(increment: Score, member: Bytes) returns (score: Score)
      requires Valid()
      modifies Repr()
      ensures Valid() && fresh(Repr() - old(Repr()))
      ensures score == if member in old(dict) then old(dict)[member] + increment else increment
      ensures dict == old(dict)[member := score]
    {
      hide SkipList.Valid, Valid;
      score := increment;
      if member in dict {
        score := dict[member] + increment;
        Drop(member);
      }
      Put(Pair(score, member));
      assert dict == old(dict)[member := score];
    }

    /** Collects up to `limit` pairs from the tail along the backward pointers. */
    method CollectFromTail(limit: nat) returns (popped: seq<Pair>)
      requires Valid() && limit <= |Pairs()|
      ensures popped == Reversed(Pairs())[..limit]
    {
      popped := [];
      var curr := zsl.tail;
      var i := 0;
      while i < limit && curr != null
        invariant 0 <= i <= limit == |Pairs()| - (|Pairs()| - limit)
        invariant curr == if i == |Pairs()| then null else zsl.nodes[|Pairs()| - i]
        invariant popped == Reversed(Pairs())[..i]
      {
        popped := popped + [Pair(curr.score, curr.ele)];
        curr := curr.backward;
        i := i + 1;
      }
    }

    method CollectFromHead(limit: nat) returns (popped: seq<Pair>)
      requires Valid() && limit <= |Pairs()|
      ensures popped == Pairs()[..limit]
    {
      popped := [];
      BottomLink(zsl.nodes, zsl.towers, zsl.level, 0);
      var curr := zsl.header.level[0].forward;
      var i := 0;
      while i < limit && curr != null
        invariant 0 <= i <= limit
        invariant curr == if i == |Pairs()| then null else zsl.nodes[i + 1]
        invariant popped == Pairs()[..i]
      {
        BottomLink(zsl.nodes, zsl.towers, zsl.level, i + 1);
        popped := popped + [Pair(curr.score, curr.ele)];
        curr := curr.level[0].forward;
        i := i + 1;
      }
    }

    /** The loop that takes the popped pairs out of both structures. */
    method DropAll(popped: seq<Pair>)
      requires Valid()
      requires forall i :: 0 <= i < |popped| ==> popped[i] in Pairs()
      requires forall i, j :: 0 <= i < j < |popped| ==> popped[i] != popped[j]
      modifies Repr()
      ensures Valid() && Repr() <= old(Repr())
      ensures dict == old(dict) - Elements(Members(popped))
    {
      assert forall i :: 0 <= i < |popped| ==> popped[i].ele in dict && dict[popped[i].ele] == popped[i].score;
      hide SkipList.Valid, Valid, Repr;
      MinusAbsent(dict, []);
      var i := 0;
      while i < |popped|
        invariant 0 <= i <= |popped|
        invariant Valid() && Repr() <= old(Repr())
        invariant dict == old(dict) - Elements(Members(popped)[..i])
        invariant forall j :: i <= j < |popped| ==> popped[j].ele in dict && dict[popped[j].ele] == popped[j].score
      {
        ElementsGrow(Members(popped), i);
        MinusOneMore(old(dict), Elements(Members(popped)[..i]), popped[i].ele);
        Drop(popped[i].ele);
        i := i + 1;
      }
      assert Members(popped)[..i] == Members(popped);
    }

    /** ZPOPMAX: the highest pairs, highest first; what remains is the rest of the sequence. */
    method PopMax(limit: nat) returns (popped: seq<Pair>)
      requires Valid() && limit <= |Pairs()|
      modifies Repr()
      ensures Valid() && Repr() <= old(Repr())
      ensures popped == Reversed(old(Pairs()))[..limit]
      ensures Pairs() == old(Pairs())[..|old(Pairs())| - limit]
      ensures dict == old(dict) - Elements(Members(popped))
    {
      hide SkipList.Valid, SkipList.Contents, Sorted, Agree, Elements, Members;
      ghost var s := Pairs();
      popped := CollectFromTail(limit);
      PoppedFromTail(s, limit);
      RunRemoved(dict, s, |s| - limit, |s|, Elements(Members(popped)));
      DropAll(popped);
      AgreeDetermines(dict, Pairs(), s[..|s| - limit] + s[|s|..]);
    }

    method PopMin(limit: nat) returns (popped: seq<Pair>)
      requires Valid() && limit <= |Pairs()|
      modifies Repr()
      ensures Valid() && Repr() <= old(Repr())
      ensures popped == old(Pairs())[..limit]
      ensures Pairs() == old(Pairs())[limit..]
      ensures dict == old(dict) - Elements(Members(popped))
    {
      hide SkipList.Valid, SkipList.Contents, Sorted, Agree, Elements, Members;
      ghost var s := Pairs();
      popped := CollectFromHead(limit);
      PoppedFromHead(s, limit);
      RunRemoved(dict, s, 0, limit, Elements(Members(popped)));
      DropAll(popped);
      AgreeDetermines(dict, Pairs(), s[..0] + s[limit..]);
    }

    method Score(member: Bytes) returns (score: Option<Score>)
      requires Valid()
      ensures score == if member in dict then Some(dict[member]) else None
    {
      score := if member in dict then Some(dict[member]) else None;
    }

    method Card() returns (n: nat)
      requires Valid()
      ensures n == |dict| == |Pairs()|
    {
      AgreeSize(dict, Pairs());
      n := zsl.length;
    }

    /** ZRANK: the position of the member in the sorted sequence. */
    method Rank(member: Bytes) returns (rank: Option<nat>)
      requires Valid()
      ensures rank.None? <==> member !in dict
      ensures rank.Some? ==> rank.value < |Pairs()| && Pairs()[rank.value] == Pair(dict[member], member)
    {
      if member !in dict {
        return None;
      }
      var r := zsl.GetRank(dict[member], member);
      assert r > 0;
      assert Pairs()[r - 1] in Pairs();
      rank := Some(r - 1);
    }

    /** ZREVRANK: the position counted from the other end. */
    method RevRank(member: Bytes) returns (rank: Option<nat>)
      requires Valid()
      ensures rank.None? <==> member !in dict
      ensures rank.Some? ==> rank.value < |Pairs()| && Reversed(Pairs())[rank.value] == Pair(dict[member], member)
    {
      if member !in dict {
        return None;
      }
      var r := zsl.GetRank(dict[member], member);
      assert r > 0;
      assert Pairs()[r - 1] in Pairs();
      rank := Some(zsl.length - r);
    }

    /** ZCOUNT: as many as there are pairs with a score in the range. */
    method Count(min: Score, max: Score) returns (n: nat)
      requires Valid()
      ensures n == |InRange(Pairs(), min, max)|
    {
      InRangeIsSlice(Pairs(), min, max);
      var first := zsl.FirstInRangeRank(min);
      if first == 0 {
        return 0;
      }
      var last := zsl.LastInRangeRank(max);
      if last == 0 || first > last {
        return 0;
      }
      n := last - first + 1;
    }

    /** The node at a position, counted from 1, as the walks along level 0 see it. */
    ghost predicate At(node: Node?, p: nat)
      requires Valid()
      reads this, zsl, zsl.nodes
    {
      && 1 <= p <= |Pairs()| + 1
      && if p == |Pairs()| + 1 then node == null
         else node != null && node == zsl.nodes[p] && Pairs()[p - 1] == Pair(node.score, node.ele)
    }

    method ElementAt(rank: nat) returns (node: Node)
      requires Valid() && 1 <= rank <= |Pairs()|
      ensures At(node, rank)
    {
      var x := zsl.GetElementByRank(rank);
      node := x;
    }

    /** The pair of a node and the node after it. */
    method Next(node: Node, ghost p: nat) returns (pair: Pair, next: Node?)
      requires Valid() && At(node, p)
      ensures p <= |Pairs()| && pair == Pairs()[p - 1] == Pair(node.score, node.ele)
      ensures At(next, p + 1)
    {
      BottomLink(zsl.nodes, zsl.towers, zsl.level, p);
      pair, next := Pair(node.score, node.ele), node.level[0].forward;
    }

    /** The pair of a node and the node before it. */
    method Previous(node: Node, ghost p: nat) returns (pair: Pair, previous: Node?)
      requires Valid() && At(node, p)
      ensures p <= |Pairs()| && pair == Pairs()[p - 1] == Pair(node.score, node.ele)
      ensures if p == 1 then previous == null else previous != null && At(previous, p - 1)
    {
      assert zsl.nodes[p].backward == if p == 1 then null else zsl.nodes[p - 1];
      pair, previous := Pair(node.score, node.ele), node.backward;
    }

    /** The walk that writes a sorted set to a snapshot, along level 0 to its end. */
    method Saved() returns (pairs: seq<Pair>)
      requires Valid()
      ensures pairs == Pairs()
    {
      hide SkipList.Valid, SkipList.Contents, Agree;
      var node := FirstNode();
      pairs := [];
      while node != null
        invariant At(node, |pairs| + 1) && pairs == Pairs()[..|pairs|]
        decreases |Pairs()| - |pairs|
      {
        var pair, next := Next(node, |pairs| + 1);
        pairs, node := pairs + [pair], next;
      }
    }

    method FirstNode() returns (node: Node?)
      requires Valid()
      ensures At(node, 1)
    {
      BottomLink(zsl.nodes, zsl.towers, zsl.level, 0);
      node := zsl.header.level[0].forward;
    }

    /** The index arithmetic of ZRANGE and ZREVRANGE: the resolved ends, or nothing to return. */
    method Resolve(start: int, stop: int) returns (lo: nat, hi: int)
      requires Valid()
      ensures lo <= hi ==> hi < |Pairs()|
      ensures Slice(Pairs(), start, stop) == if lo <= hi then Pairs()[lo..hi + 1] else []
      ensures Slice(Reversed(Pairs()), start, stop) == if lo <= hi then Reversed(Pairs())[lo..hi + 1] else []
    {
      var length := zsl.length;
      var from := if start < 0 then length + start else start;
      hi := if stop < 0 then length + stop else stop;
      lo := if from < 0 then 0 else from;
      hi := if hi >= length then length - 1 else hi;
      hide SkipList.Valid, SkipList.Contents, Valid;
      SliceAt(Pairs(), start, stop, lo, hi);
      SliceAt(Reversed(Pairs()), start, stop, lo, hi);
    }

    method Range(start: int, stop: int) returns (res: seq<Pair>)
      requires Valid()
      ensures res == Slice(Pairs(), start, stop)
    {
      hide *;
      var lo, hi := Resolve(start, stop);
      if lo > hi {
        return [];
      }
      ghost var s := Pairs();
      var node: Node? := ElementAt(lo + 1);
      res := [];
      var i := lo;
      while i <= hi && node != null
        invariant lo <= i <= hi + 1
        invariant At(node, i + 1) && (i <= hi ==> node != null)
        invariant res == s[lo..i]
      {
        SliceGrows(s, lo, i);
        var pair, next := Next(node, i + 1);
        res, node, i := res + [pair], next, i + 1;
      }
    }

    method RevRange(start: int, stop: int) returns (res: seq<Pair>)
      requires Valid()
      ensures res == Slice(Reversed(Pairs()), start, stop)
    {
      hide *;
      var length := Card();
      var lo, hi := Resolve(start, stop);
      if lo > hi {
        return [];
      }
      ghost var s := Reversed(Pairs());
      var node: Node? := ElementAt(length - lo);
      res := [];
      var i := lo;
      while i <= hi && node != null
        invariant lo <= i <= hi + 1
        invariant if i == length then node == null else node != null && At(node, length - i)
        invariant res == s[lo..i]
      {
        SliceGrows(s, lo, i);
        var pair, previous := Previous(node, length - i);
        res, node, i := res + [pair], previous, i + 1;
      }
    }

    /** Steps over `offset` nodes, or to the end. */
    method SkipForward(first: Node?, offset: int, ghost p: nat) returns (node: Node?, ghost q: nat)
      requires Valid() && At(first, p)
      ensures At(node, q)
      ensures q == if offset <= 0 then p else if p + offset <= |Pairs()| then p + offset else |Pairs()| + 1
    {
      hide SkipList.Valid, SkipList.Contents, Valid;
      node, q := first, p;
      var skip := offset;
      while skip > 0 && node != null
        invariant p <= q && At(node, q)
        invariant if offset <= 0 then q == p && skip == offset else skip >= 0 && q == p + offset - skip
      {
        var pair, next := Next(node, q);
        node, q, skip := next, q + 1, skip - 1;
      }
    }

    lemma AtSays(node: Node?, p: nat)
      requires Valid() && At(node, p)
      ensures 1 <= p <= |Pairs()| + 1 && (node == null <==> p == |Pairs()| + 1)
      ensures node != null ==> Pairs()[p - 1] == Pair(node.score, node.ele)
    {
    }

    /** Collects while the score is in range, up to `count` pairs when `count` is positive. */
    method CollectForward(first: Node?, max: Score, count: int, ghost p: nat) returns (res: seq<Pair>)
      requires Valid() && At(first, p)
      ensures res == Limit(Run(Pairs(), p - 1, Passing(Pairs(), ThroughScore(max))), 0, count)
    {
      hide *;
      ghost var s, b := Pairs(), Passing(Pairs(), ThroughScore(max));
      ThroughSplits(s, max);
      res := [];
      var node := first;
      ghost var q := p;
      AtSays(node, q);
      while node != null && node.score <= max
        invariant p <= q <= |s| + 1 && At(node, q) && (q > p ==> q - 1 <= b)
        invariant res == s[p - 1..q - 1]
        invariant count > 0 ==> |res| < count
        decreases |s| + 1 - q
      {
        AtSays(node, q);
        SliceGrows(s, p - 1, q - 1);
        res := res + [Pair(node.score, node.ele)];
        if count > 0 && |res| == count {
          break;
        }
        var pair, next := Next(node, q);
        node, q := next, q + 1;
      }
      AtSays(node, q);
      RunCut(s, p - 1, b, count, res);
    }

    /** ZRANGEBYSCORE: the first node in range is found by a walk, `offset` nodes are skipped, and pairs are
        collected until the score is out of range or `count` is reached. */
    method RangeByScore(min: Score, max: Score, offset: int, count: int) returns (res: seq<Pair>)
      requires Valid()
      ensures res == Limit(InRange(Pairs(), min, max), offset, count)
    {
      hide SkipList.Valid, Sorted, Passing, Limit, InRange, At, Run;
      ghost var s := Pairs();
      ghost var a, b := Passing(s, BelowScore(min)), Passing(s, ThroughScore(max));
      ScoreRangeIsRun(s, min, max, offset, count);
      var first := FirstFrom(min);
      AtSays(first, a + 1);
      if first == null || first.score > max {
        return [];
      }
      var node, q := SkipForward(first, offset, a + 1);
      res := CollectForward(node, max, count, q);
    }

    method FirstFrom(min: Score) returns (node: Node?)
      requires Valid()
      ensures At(node, Passing(Pairs(), BelowScore(min)) + 1)
    {
      var x, r := zsl.Walk(BelowScore(min));
      BottomLink(zsl.nodes, zsl.towers, zsl.level, r);
      node := x.level[0].forward;
    }

    // ----- the same backwards; positions count from the tail, starting at 0 -----

    ghost predicate AtBack(node: Node?, j: nat)
      requires Valid()
      reads this, zsl, zsl.nodes
    {
      j <= |Pairs()| && if j == |Pairs()| then node == null else node != null && At(node, |Pairs()| - j)
    }

    lemma AtBackSays(node: Node?, j: nat)
      requires Valid() && AtBack(node, j)
      ensures j <= |Pairs()| && (node == null <==> j == |Pairs()|)
      ensures node != null ==> Reversed(Pairs())[j] == Pair(node.score, node.ele)
    {
    }

    method Back(node: Node, ghost j: nat) returns (previous: Node?)
      requires Valid() && AtBack(node, j)
      ensures AtBack(previous, j + 1)
    {
      var pair, p := Previous(node, |Pairs()| - j);
      previous := p;
    }

    method LastUpTo(max: Score) returns (node: Node?)
      requires Valid()
      ensures AtBack(node, |Pairs()| - Passing(Pairs(), ThroughScore(max)))
    {
      var x, r := zsl.Walk(ThroughScore(max));
      node := if x == zsl.header then null else x;
    }

    method SkipBack(first: Node?, offset: int, ghost j: nat) returns (node: Node?, ghost k: nat)
      requires Valid() && AtBack(first, j)
      ensures AtBack(node, k)
      ensures k == if offset <= 0 then j else if j + offset <= |Pairs()| then j + offset else |Pairs()|
    {
      hide *;
      node, k := first, j;
      AtBackSays(node, k);
      var skip := offset;
      while skip > 0 && node != null
        invariant j <= k && AtBack(node, k)
        invariant if offset <= 0 then k == j && skip == offset else skip >= 0 && k == j + offset - skip
      {
        AtBackSays(node, k);
        node := Back(node, k);
        k, skip := k + 1, skip - 1;
      }
      AtBackSays(node, k);
    }

    method CollectBack(first: Node?, min: Score, count: int, ghost j: nat) returns (res: seq<Pair>)
      requires Valid() && AtBack(first, j)
      ensures var n := |Pairs()|;
        res == Limit(Run(Reversed(Pairs()), j, n - Passing(Pairs(), BelowScore(min))), 0, count)
    {
      hide *;
      ghost var r, b := Reversed(Pairs()), |Pairs()| - Passing(Pairs(), BelowScore(min));
      BelowSplitsReversed(Pairs(), min);
      res := [];
      var node := first;
      ghost var k := j;
      AtBackSays(node, k);
      while node != null && node.score >= min
        invariant j <= k <= |r| && AtBack(node, k) && (k > j ==> k <= b)
        invariant res == r[j..k]
        invariant count > 0 ==> |res| < count
        decreases |r| - k
      {
        AtBackSays(node, k);
        SliceGrows(r, j, k);
        res := res + [Pair(node.score, node.ele)];
        if count > 0 && |res| == count {
          break;
        }
        node := Back(node, k);
        k := k + 1;
        AtBackSays(node, k);
      }
      AtBackSays(node, k);
      RunCut(r, j, b, count, res);
    }

    /** ZREVRANGEBYSCORE: the same pairs taken from the other end. */
    method RevRangeByScore(max: Score, min: Score, offset: int, count: int) returns (res: seq<Pair>)
      requires Valid()
      ensures res == Limit(Reversed(InRange(Pairs(), min, max)), offset, count)
    {
      hide SkipList.Valid, Sorted, Passing, Limit, InRange, At, AtBack, Run;
      ghost var s := Pairs();
      ghost var a, b := Passing(s, BelowScore(min)), Passing(s, ThroughScore(max));
      ScoreRangeReversed(s, min, max, offset, count);
      var first := LastUpTo(max);
      AtBackSays(first, |s| - b);
      if first == null || first.score < min {
        return [];
      }
      var node, k := SkipBack(first, offset, |s| - b);
      res := CollectBack(node, min, count, k);
    }
  }

  /** The loop that reads a sorted set back: each pair goes into the new map and the new skip list. */
  method Rebuilt(ghost home: Bytes, pairs: seq<Pair>) returns (val: SortedSet)
    requires Distinct(pairs)
    ensures val.Valid() && fresh(val.Repr()) && val.zsl.home == home
    ensures val.dict == Added(map[], pairs)
  {
    hide SkipList.Valid, SortedSet.Valid;
    val := new SortedSet(home);
    var i := 0;
    while i < |pairs|
      invariant 0 <= i <= |pairs| && val.Valid() && fresh(val.Repr()) && val.zsl.home == home
      invariant val.dict == Added(map[], pairs[..i])
    {
      AddedToNone(pairs[..i]);
      val.Put(pairs[i]);
      assert pairs[..i + 1][..i] == pairs[..i];
      i := i + 1;
    }
    assert pairs[..i] == pairs;
  }

  /** Sorted sets with different names share nothing. */
  lemma Apart(a: SortedSet, b: SortedSet)
    requires a.Valid() && b.Valid() && a.zsl.home != b.zsl.home
    ensures a != b && a.zsl != b.zsl && a.Repr() !! b.Repr()
  {
    assert forall n :: n in a.zsl.nodes ==> n.home == a.zsl.home;
    assert forall n :: n in b.zsl.nodes ==> n.home == b.zsl.home;
  }

  /** A sorted set depends on its own objects only. */
  twostate lemma Undisturbed(a: SortedSet)
    requires old(a.Valid()) && forall o :: o in old(a.Repr()) ==> unchanged(o)
    ensures a.Valid() && a.Repr() == old(a.Repr()) && a.dict == old(a.dict)
  {
    assert a.zsl in old(a.Repr()) && a in old(a.Repr());
    assert a.zsl.nodes == old(a.zsl.nodes);
    forall p | 0 <= p < |a.zsl.nodes| ensures unchanged(a.zsl.nodes[p]) {
      assert a.zsl.nodes[p] in old(a.Repr());
    }
  }
}
