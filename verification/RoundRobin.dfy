/** Fair selection of recent stories: one story per source per round, newest first. */
module RoundRobin {
  import opened Options
  import opened Ordering
  import opened Chronology

  datatype Story = Story(id: Id, source: Id, created: Option<Instant>)

  /** Only the instant half of the sort key: a dateless story is the oldest of all. */
  function Recency(s: Story): Instant {
    ChronologicalSortKey(s.created).at
  }

  // ---- `sort(key=_recency_key, reverse=True)` ----

  /** A story goes before the first one that is not newer, so equals keep their order. */
  function InsertNewest(s: Story, ss: seq<Story>): seq<Story> {
    if ss == [] || Recency(ss[0]) <= Recency(s) then [s] + ss
    else [ss[0]] + InsertNewest(s, ss[1..])
  }

  function NewestFirst(ss: seq<Story>): seq<Story> {
    if ss == [] then [] else InsertNewest(ss[0], NewestFirst(ss[1..]))
  }

  predicate Descending(ss: seq<Story>) {
    forall i, j :: 0 <= i < j < |ss| ==> Recency(ss[i]) >= Recency(ss[j])
  }

  /** In terms of the dates themselves: no story follows one that is older, and none with a date
      follows one without. */
  predicate NewestOnTop(ss: seq<Story>) {
    forall i, j :: 0 <= i < j < |ss| && HasDate(ss[j].created) ==>
      HasDate(ss[i].created) && ss[j].created.value <= ss[i].created.value
  }

  lemma DescendingIsNewestOnTop(ss: seq<Story>)
    ensures Descending(ss) <==> NewestOnTop(ss)
  {
  }

  /** The stories of one instant, in order. */
  function At(ss: seq<Story>, t: Instant): seq<Story> {
    if ss == [] then [] else (if Recency(ss[0]) == t then [ss[0]] else []) + At(ss[1..], t)
  }

  lemma {:induction false} InsertPermutes(s: Story, ss: seq<Story>)
    ensures multiset(InsertNewest(s, ss)) == multiset([s] + ss)
    ensures |InsertNewest(s, ss)| == |ss| + 1
  {
    if ss != [] && Recency(ss[0]) > Recency(s) {
      InsertPermutes(s, ss[1..]);
      assert ss == [ss[0]] + ss[1..];
    }
  }

  lemma {:induction false} InsertStaysBelow(s: Story, ss: seq<Story>, bound: Instant)
    requires Recency(s) <= bound && forall k :: 0 <= k < |ss| ==> Recency(ss[k]) <= bound
    ensures forall k :: 0 <= k < |InsertNewest(s, ss)| ==> Recency(InsertNewest(s, ss)[k]) <= bound
  {
    if ss != [] && Recency(ss[0]) > Recency(s) {
      InsertStaysBelow(s, ss[1..], bound);
    }
  }

  lemma DescendingCons(s: Story, ss: seq<Story>)
    requires Descending(ss) && forall k :: 0 <= k < |ss| ==> Recency(ss[k]) <= Recency(s)
    ensures Descending([s] + ss)
  {
  }

  lemma {:induction false} InsertSorts(s: Story, ss: seq<Story>)
    requires Descending(ss)
    ensures Descending(InsertNewest(s, ss))
  {
    if ss != [] && Recency(ss[0]) > Recency(s) {
      InsertSorts(s, ss[1..]);
      InsertStaysBelow(s, ss[1..], Recency(ss[0]));
      DescendingCons(ss[0], InsertNewest(s, ss[1..]));
    } else {
      DescendingCons(s, ss);
    }
  }

  lemma {:induction false} InsertIsStable(s: Story, ss: seq<Story>, t: Instant)
    requires Descending(ss)
    ensures At(InsertNewest(s, ss), t) == At([s] + ss, t)
  {
    assert ([s] + ss)[1..] == ss;
    if ss != [] && Recency(ss[0]) > Recency(s) {
      InsertIsStable(s, ss[1..], t);
      assert ([s] + ss[1..])[1..] == ss[1..];
      var r := InsertNewest(s, ss[1..]);
      assert ([ss[0]] + r)[1..] == r;
    }
  }

  lemma {:induction false} SortDescends(ss: seq<Story>)
    ensures Descending(NewestFirst(ss))
  {
    if ss != [] {
      SortDescends(ss[1..]);
      InsertSorts(ss[0], NewestFirst(ss[1..]));
    }
  }

  lemma {:induction false} SortPermutes(ss: seq<Story>)
    ensures multiset(NewestFirst(ss)) == multiset(ss) && |NewestFirst(ss)| == |ss|
  {
    if ss != [] {
      SortPermutes(ss[1..]);
      InsertPermutes(ss[0], NewestFirst(ss[1..]));
      assert ss == [ss[0]] + ss[1..];
    }
  }

  lemma {:induction false} SortKeepsTies(ss: seq<Story>, t: Instant)
    ensures At(NewestFirst(ss), t) == At(ss, t)
  {
    if ss != [] {
      var rest := NewestFirst(ss[1..]);
      SortKeepsTies(ss[1..], t);
      SortDescends(ss[1..]);
      InsertIsStable(ss[0], rest, t);
      assert ([ss[0]] + rest)[1..] == rest;
    }
  }

  /** The sort is a permutation, newest first, and keeps the order of equally recent stories. */
  lemma {:induction false} SortIsStable(ss: seq<Story>, t: Instant)
    ensures Descending(NewestFirst(ss))
    ensures multiset(NewestFirst(ss)) == multiset(ss) && |NewestFirst(ss)| == |ss|
    ensures At(NewestFirst(ss), t) == At(ss, t)
  {
    SortDescends(ss);
    SortPermutes(ss);
    SortKeepsTies(ss, t);
  }

  // ---- One source's stories ----

  function From(ss: seq<Story>, source: Id): seq<Story> {
    if ss == [] then []
    else From(ss[..|ss| - 1], source) + if ss[|ss| - 1].source == source then [ss[|ss| - 1]] else []
  }

  function Sources(ss: seq<Story>): set<Id> {
    set s | s in ss :: s.source
  }

  /** A source's stories as the selection meets them. */
  function Queue(ss: seq<Story>, source: Id): seq<Story> {
    NewestFirst(From(ss, source))
  }

  function Without(ss: seq<Story>, source: Id): seq<Story> {
    if ss == [] then []
    else Without(ss[..|ss| - 1], source) + if ss[|ss| - 1].source == source then [] else [ss[|ss| - 1]]
  }

  lemma FromAppend(ss: seq<Story>, s: Story, source: Id)
    ensures From(ss + [s], source) == From(ss, source) + if s.source == source then [s] else []
    ensures Without(ss + [s], source) == Without(ss, source) + if s.source == source then [] else [s]
  {
    assert (ss + [s])[..|ss|] == ss;
  }

  lemma {:induction false} WithoutOne(ss: seq<Story>, source: Id)
    ensures |ss| == |From(ss, source)| + |Without(ss, source)|
    ensures Sources(Without(ss, source)) == Sources(ss) - {source}
  {
    if ss != [] {
      var prior, s := ss[..|ss| - 1], ss[|ss| - 1];
      WithoutOne(prior, source);
      assert ss == prior + [s];
      SourcesAppend(prior, s);
      SourcesAppend(Without(prior, source), s);
    }
  }

  lemma {:induction false} OthersStay(ss: seq<Story>, source: Id, t: Id)
    requires t != source
    ensures From(Without(ss, source), t) == From(ss, t)
  {
    if ss != [] {
      var rest := Without(ss[..|ss| - 1], source);
      OthersStay(ss[..|ss| - 1], source, t);
      FromAppend(rest, ss[|ss| - 1], t);
      assert rest + [] == rest;
    }
  }

  lemma NoSources(ss: seq<Story>)
    ensures Sources(ss) == {} <==> ss == []
  {
    if ss != [] {
      assert ss[0].source in Sources(ss);
    }
  }

  /** Counting source by source: fewer of each means fewer in all. */
  lemma {:induction false} CountBySource(xs: seq<Story>, ys: seq<Story>, sources: set<Id>)
    requires Sources(xs) <= sources && Sources(ys) <= sources
    requires forall s :: s in sources ==> |From(xs, s)| <= |From(ys, s)|
    ensures |xs| <= |ys|
    ensures (forall s :: s in sources ==> |From(xs, s)| == |From(ys, s)|) ==> |xs| == |ys|
    decreases |sources|
  {
    if sources == {} {
      NoSources(xs);
      NoSources(ys);
    } else {
      var s :| s in sources;
      WithoutOne(xs, s);
      WithoutOne(ys, s);
      forall t | t in sources - {s}
        ensures From(Without(xs, s), t) == From(xs, t) && From(Without(ys, s), t) == From(ys, t)
      {
        OthersStay(xs, s, t);
        OthersStay(ys, s, t);
      }
      CountBySource(Without(xs, s), Without(ys, s), sources - {s});
    }
  }

  // ---- The selection ----

  function Least(a: nat, b: nat): nat {
    if a < b then a else b
  }

  /** Each source's selected stories are the newest of its queue. */
  ghost predicate TakesPrefixes(stories: seq<Story>, selected: seq<Story>) {
    forall s ::
      |From(selected, s)| <= |Queue(stories, s)| && From(selected, s) == Queue(stories, s)[..|From(selected, s)|]
  }

  /** In terms of dates: of one source nothing is left out that is newer than something selected. */
  ghost predicate LeavesNoneNewer(stories: seq<Story>, selected: seq<Story>) {
    forall s, i, j :: |From(selected, s)| <= i < |Queue(stories, s)| && 0 <= j < |From(selected, s)| ==>
      NewestOnTop([From(selected, s)[j], Queue(stories, s)[i]])
  }

  lemma PrefixesLeaveNoneNewer(stories: seq<Story>, selected: seq<Story>)
    requires TakesPrefixes(stories, selected)
    ensures LeavesNoneNewer(stories, selected)
  {
    forall s ensures NewestOnTop(Queue(stories, s)) {
      SortDescends(From(stories, s));
      DescendingIsNewestOnTop(Queue(stories, s));
    }
  }

  /** When the limit cuts a round short, the sources that come first by id have had their turn. */
  ghost predicate InTurn(stories: seq<Story>, selected: seq<Story>) {
    forall s, t :: Lt(s, t) && |From(selected, s)| < |Queue(stories, s)| ==>
      |From(selected, t)| <= |From(selected, s)|
  }

  /** No source is more than one ahead of a source that still has stories. */
  ghost predicate Fair(stories: seq<Story>, selected: seq<Story>) {
    forall s, t :: |From(selected, t)| < |Queue(stories, t)| ==> |From(selected, s)| <= |From(selected, t)| + 1
  }

  function Turns(stories: seq<Story>, source: Id, rounds: nat): nat {
    Least(|Queue(stories, source)|, rounds)
  }

  /** What has been selected of each source is what its cursor has passed. */
  ghost predicate AtCursors(stories: seq<Story>, order: seq<Id>, selected: seq<Story>, cursors: map<Id, nat>) {
    forall s :: s in order ==>
      s in cursors && cursors[s] <= |Queue(stories, s)| && From(selected, s) == Queue(stories, s)[..cursors[s]]
  }

  /** In the middle of a round: the first `done` sources have had their turn in it. */
  ghost predicate InRound(stories: seq<Story>, order: seq<Id>, selected: seq<Story>, cursors: map<Id, nat>,
                          round: nat, done: nat)
  {
    && done <= |order|
    && Sources(selected) <= Sources(stories)
    && AtCursors(stories, order, selected, cursors)
    && (forall i :: 0 <= i < |order| ==>
          cursors[order[i]] == Turns(stories, order[i], if i < done then round + 1 else round))
  }

  method BySource(stories: seq<Story>) returns (bySource: map<Id, seq<Story>>)
    ensures bySource.Keys == Sources(stories)
    ensures forall s :: s in bySource ==> bySource[s] == Queue(stories, s)
  {
    var grouped: map<Id, seq<Story>> := map[];
    for i := 0 to |stories|
      invariant grouped.Keys == Sources(stories[..i])
      invariant forall s :: s in grouped ==> grouped[s] == From(stories[..i], s)
    {
      var story := stories[i];
      assert stories[..i + 1] == stories[..i] + [story];
      SourcesAppend(stories[..i], story);
      forall s
        ensures From(stories[..i + 1], s) == From(stories[..i], s) + if s == story.source then [story] else []
        ensures s !in grouped ==> From(stories[..i], s) == []
      {
        FromAppend(stories[..i], story, s);
        FromAbsent(stories[..i], s);
      }
      grouped := grouped[story.source := (if story.source in grouped then grouped[story.source] else []) + [story]];
    }
    assert stories[..|stories|] == stories;
    bySource := map s | s in grouped :: NewestFirst(grouped[s]);
  }

  lemma SourcesAppend(ss: seq<Story>, s: Story)
    ensures Sources(ss + [s]) == Sources(ss) + {s.source}
  {
    assert s in ss + [s];
    assert forall x :: x in ss ==> x in ss + [s];
  }

  lemma {:induction false} FromAbsent(ss: seq<Story>, source: Id)
    ensures source !in Sources(ss) ==> From(ss, source) == []
  {
    if ss != [] {
      FromAbsent(ss[..|ss| - 1], source);
      assert ss == ss[..|ss| - 1] + [ss[|ss| - 1]];
      SourcesAppend(ss[..|ss| - 1], ss[|ss| - 1]);
    }
  }

  lemma {:induction false} FromIsOfSource(ss: seq<Story>, source: Id)
    ensures forall x :: x in From(ss, source) ==> x.source == source && x in ss
  {
    if ss != [] {
      FromIsOfSource(ss[..|ss| - 1], source);
    }
  }

  lemma QueueFacts(ss: seq<Story>, source: Id)
    ensures |Queue(ss, source)| == |From(ss, source)|
    ensures forall x :: x in Queue(ss, source) ==> x.source == source && x in ss
    ensures source !in Sources(ss) ==> Queue(ss, source) == []
  {
    SortPermutes(From(ss, source));
    FromIsOfSource(ss, source);
    FromAbsent(ss, source);
    forall x | x in Queue(ss, source) ensures x in From(ss, source) {
      assert x in multiset(Queue(ss, source));
    }
  }

  lemma RunStarts(stories: seq<Story>, order: seq<Id>, cursors: map<Id, nat>)
    requires forall s :: s in order ==> s in cursors && cursors[s] == 0
    ensures InRound(stories, order, [], cursors, 0, 0)
  {
    assert forall s :: Queue(stories, s)[..0] == [];
  }

  /** A source that still has a story gives its next one. */
  lemma TakeTurn(stories: seq<Story>, order: seq<Id>, selected: seq<Story>, cursors: map<Id, nat>, round: nat, i: nat,
                 story: Story)
    requires i < |order| && Increasing(order) && InRound(stories, order, selected, cursors, round, i)
    requires cursors[order[i]] < |Queue(stories, order[i])| && story == Queue(stories, order[i])[cursors[order[i]]]
    ensures InRound(stories, order, selected + [story], cursors[order[i] := cursors[order[i]] + 1], round, i + 1)
  {
    var source := order[i];
    assert source in order;
    QueueFacts(stories, source);
    assert story in Queue(stories, source);
    SourcesAppend(selected, story);
    assert story.source in Sources(stories);
    PrefixesAdvance(stories, order, selected, cursors, story);
    CursorsAdvance(stories, order, cursors, round, i);
  }

  lemma PrefixesAdvance(stories: seq<Story>, order: seq<Id>, selected: seq<Story>, cursors: map<Id, nat>, story: Story)
    requires AtCursors(stories, order, selected, cursors)
    requires story.source in order && cursors[story.source] < |Queue(stories, story.source)|
    requires story == Queue(stories, story.source)[cursors[story.source]]
    ensures AtCursors(stories, order, selected + [story], cursors[story.source := cursors[story.source] + 1])
  {
    forall s | s in order
      ensures From(selected + [story], s) == From(selected, s) + if s == story.source then [story] else []
    {
      FromAppend(selected, story, s);
    }
    TakeNext(Queue(stories, story.source), cursors[story.source]);
  }

  lemma TakeNext(queue: seq<Story>, c: nat)
    requires c < |queue|
    ensures queue[..c] + [queue[c]] == queue[..c + 1]
  {
  }

  lemma CursorsAdvance(stories: seq<Story>, order: seq<Id>, cursors: map<Id, nat>, round: nat, i: nat)
    requires i < |order| && Increasing(order) && forall s :: s in order ==> s in cursors
    requires forall k :: 0 <= k < |order| ==>
      cursors[order[k]] == Turns(stories, order[k], if k < i then round + 1 else round)
    requires cursors[order[i]] < |Queue(stories, order[i])|
    ensures
      var cursors' := cursors[order[i] := cursors[order[i]] + 1];
      forall k :: 0 <= k < |order| ==>
        cursors'[order[k]] == Turns(stories, order[k], if k < i + 1 then round + 1 else round)
  {
    forall k | 0 <= k < |order| && k != i ensures order[k] != order[i] {
      Trichotomy(order[k], order[i]);
    }
  }

  /** One that has none left is passed over. */
  lemma PassTurn(stories: seq<Story>, order: seq<Id>, selected: seq<Story>, cursors: map<Id, nat>, round: nat, i: nat)
    requires i < |order| && InRound(stories, order, selected, cursors, round, i)
    requires cursors[order[i]] >= |Queue(stories, order[i])|
    ensures InRound(stories, order, selected, cursors, round, i + 1) && |Queue(stories, order[i])| <= round
  {
  }

  lemma NextRound(stories: seq<Story>, order: seq<Id>, selected: seq<Story>, cursors: map<Id, nat>, round: nat)
    requires InRound(stories, order, selected, cursors, round, |order|)
    ensures InRound(stories, order, selected, cursors, round + 1, 0)
  {
  }

  /** What any point of the selection promises. */
  lemma RoundIsFair(stories: seq<Story>, order: seq<Id>, selected: seq<Story>, cursors: map<Id, nat>, round: nat,
                    done: nat)
    requires InRound(stories, order, selected, cursors, round, done) && Elements(order) == Sources(stories)
    ensures TakesPrefixes(stories, selected) && Fair(stories, selected)
    ensures |selected| <= |stories|
    ensures (forall s :: s in order ==> |Queue(stories, s)| <= round) ==> |selected| == |stories|
  {
    forall s
      ensures |From(selected, s)| <= |Queue(stories, s)|
      ensures From(selected, s) == Queue(stories, s)[..|From(selected, s)|]
      ensures |From(selected, s)| <= round + 1
      ensures |From(selected, s)| < |Queue(stories, s)| ==> |From(selected, s)| >= round
      ensures |Queue(stories, s)| == |From(stories, s)|
    {
      QueueFacts(stories, s);
      FromAbsent(selected, s);
      if s in order {
        var i :| 0 <= i < |order| && order[i] == s;
      } else {
        assert s !in Elements(order);
      }
    }
    CountBySource(selected, stories, Sources(stories));
    if forall s :: s in order ==> |Queue(stories, s)| <= round {
      forall s | s in Sources(stories) ensures |From(selected, s)| == |From(stories, s)| {
        assert s in Elements(order) && s in order;
      }
    }
  }

  lemma RoundIsInTurn(stories: seq<Story>, order: seq<Id>, selected: seq<Story>, cursors: map<Id, nat>, round: nat,
                      done: nat)
    requires InRound(stories, order, selected, cursors, round, done)
    requires Increasing(order) && Elements(order) == Sources(stories)
    ensures InTurn(stories, selected)
  {
    forall s, t | Lt(s, t) && |From(selected, s)| < |Queue(stories, s)|
      ensures |From(selected, t)| <= |From(selected, s)|
    {
      QueueFacts(stories, s);
      FromAbsent(selected, t);
      assert s in Elements(order);
      if t in Sources(selected) {
        assert t in Elements(order);
        EarlierHasHadItsTurn(order, cursors, stories, round, done, s, t);
      }
    }
  }

  lemma EarlierHasHadItsTurn(order: seq<Id>, cursors: map<Id, nat>, stories: seq<Story>, round: nat, done: nat,
                             s: Id, t: Id)
    requires Increasing(order) && s in order && t in order && Lt(s, t) && s in cursors && t in cursors
    requires forall i :: 0 <= i < |order| ==> order[i] in cursors
    requires forall i :: 0 <= i < |order| ==>
      cursors[order[i]] == Turns(stories, order[i], if i < done then round + 1 else round)
    requires cursors[s] < |Queue(stories, s)|
    ensures cursors[t] <= cursors[s]
  {
    var i :| 0 <= i < |order| && order[i] == s;
    var j :| 0 <= j < |order| && order[j] == t;
    Trichotomy(s, t);
    if j < i { assert Lt(order[j], order[i]); }
  }

  /** `_round_robin_by_source`. */
  method SelectFairly(stories: seq<Story>, limit: int) returns (selected: seq<Story>)
    ensures |selected| == if limit <= 0 then 0 else Least(limit, |stories|)
    ensures TakesPrefixes(stories, selected) && LeavesNoneNewer(stories, selected)
    ensures Fair(stories, selected) && InTurn(stories, selected)
  {
    var bySource := BySource(stories);
    var order := Sorted(bySource.Keys);
    SortedIncreases(bySource.Keys);
    assert Elements(order) == Sources(stories);
    var cursors: map<Id, nat> := map s | s in bySource :: 0;
    selected := [];
    ghost var round: nat, at: nat := 0, 0;
    RunStarts(stories, order, cursors);
    while |selected| < limit
      invariant InRound(stories, order, selected, cursors, round, at)
      invariant |selected| < limit ==> at == 0
      invariant limit <= 0 ==> selected == []
      invariant limit > 0 ==> |selected| <= limit
      decreases limit - |selected|
    {
      var progressed;
      selected, cursors, progressed, at := PlayRound(stories, bySource, order, selected, cursors, limit, round);
      if !progressed {
        break;
      }
      if |selected| < limit {
        NextRound(stories, order, selected, cursors, round);
        round, at := round + 1, 0;
      }
    }
    RoundIsFair(stories, order, selected, cursors, round, at);
    RoundIsInTurn(stories, order, selected, cursors, round, at);
    PrefixesLeaveNoneNewer(stories, selected);
  }

  /** A pass over the sources that began with `start` selected and has reached source `i`:
      either it has taken a story, or nobody so far had one left. */
  ghost predicate MidRound(stories: seq<Story>, order: seq<Id>, start: seq<Story>, selected: seq<Story>,
                           cursors: map<Id, nat>, round: nat, i: nat, progressed: bool)
  {
    && InRound(stories, order, selected, cursors, round, i)
    && if progressed then |selected| > |start|
       else selected == start && forall k :: 0 <= k < i ==> |Queue(stories, order[k])| <= round
  }

  lemma TurnTaken(stories: seq<Story>, order: seq<Id>, start: seq<Story>, selected: seq<Story>,
                  cursors: map<Id, nat>, round: nat, i: nat, progressed: bool)
    requires MidRound(stories, order, start, selected, cursors, round, i, progressed)
    requires i < |order| && Increasing(order) && order[i] in order
    requires cursors[order[i]] < |Queue(stories, order[i])|
    ensures
      var c := cursors[order[i]];
      MidRound(stories, order, start, selected + [Queue(stories, order[i])[c]], cursors[order[i] := c + 1], round,
               i + 1, true)
  {
    TakeTurn(stories, order, selected, cursors, round, i, Queue(stories, order[i])[cursors[order[i]]]);
  }

  lemma TurnPassed(stories: seq<Story>, order: seq<Id>, start: seq<Story>, selected: seq<Story>,
                   cursors: map<Id, nat>, round: nat, i: nat, progressed: bool)
    requires MidRound(stories, order, start, selected, cursors, round, i, progressed)
    requires i < |order| && order[i] in order && cursors[order[i]] >= |Queue(stories, order[i])|
    ensures MidRound(stories, order, start, selected, cursors, round, i + 1, progressed)
  {
    PassTurn(stories, order, selected, cursors, round, i);
  }

  /** One pass over the sources, cut short when the limit is reached. */
  method PlayRound(stories: seq<Story>, bySource: map<Id, seq<Story>>, order: seq<Id>, start: seq<Story>,
                   from: map<Id, nat>, limit: int, ghost round: nat)
    returns (selected: seq<Story>, cursors: map<Id, nat>, progressed: bool, ghost done: nat)
    requires Increasing(order) && |start| < limit && InRound(stories, order, start, from, round, 0)
    requires forall s :: s in order ==> s in bySource && bySource[s] == Queue(stories, s)
    ensures MidRound(stories, order, start, selected, cursors, round, done, progressed)
    ensures |selected| <= limit && (|selected| < limit ==> done == |order|)
  {
    selected, cursors, progressed, done := start, from, false, 0;
    var i := 0;
    while i < |order|
      invariant 0 <= i <= |order| && |selected| < limit
      invariant MidRound(stories, order, start, selected, cursors, round, i, progressed)
    {
      var source := order[i];
      assert source in order;
      var c := cursors[source];
      if c < |bySource[source]| {
        TurnTaken(stories, order, start, selected, cursors, round, i, progressed);
        selected := selected + [bySource[source][c]];
        cursors := cursors[source := c + 1];
        progressed := true;
        if |selected| >= limit {
          i := i + 1;
          break;
        }
      } else {
        TurnPassed(stories, order, start, selected, cursors, round, i, progressed);
      }
      i := i + 1;
    }
    done := i;
  }

  /** `fetch_recent_stories` over the rows the query returned: the cut is fair, the displayed
      order plain recency. */
  method FetchRecentStories(stories: seq<Story>, limit: int) returns (feed: seq<Story>)
    ensures Descending(feed) && NewestOnTop(feed)
    ensures |feed| == if limit <= 0 then 0 else Least(limit, |stories|)
    ensures exists selected ::
      && multiset(selected) == multiset(feed) && TakesPrefixes(stories, selected) && Fair(stories, selected)
      && LeavesNoneNewer(stories, selected) && InTurn(stories, selected)
  {
    var selected := SelectFairly(stories, limit);
    SortIsStable(selected, 0);
    DescendingIsNewestOnTop(NewestFirst(selected));
    feed := NewestFirst(selected);
  }
}
