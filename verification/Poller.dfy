/** One RSS source: the poll loop, and the same loop when it may crash between any two of its
    reads and writes. */
module Poller {
  import opened Options
  import opened Ordering

  /** Fields of a feed entry; a missing field and a null read as empty. */
  datatype Entry = Entry(
    id: Option<string>,
    guid: Option<string>,
    title: Option<string>,
    summary: Option<string>,
    link: Option<string>)

  function EntryGuid(e: Entry): Id {
    if e.id.GetOr("") != "" then e.id.value
    else if e.guid.GetOr("") != "" then e.guid.value
    else e.link.GetOr("")
  }

  /** What the hash is taken over. The hash is injective, so the text stands for it. */
  function Fingerprint(e: Entry): string {
    e.title.GetOr("") + e.summary.GetOr("") + e.link.GetOr("")
  }

  datatype Kind = Discovery | Update

  datatype Event = Event(kind: Kind, guid: Id, fingerprint: string)

  /** The stored fingerprints of one source and the events its queue has received. */
  datatype State = State(table: map<Id, string>, published: seq<Event>)

  predicate Unchanged(s: State, e: Entry) {
    EntryGuid(e) in s.table && s.table[EntryGuid(e)] == Fingerprint(e)
  }

  function EventFor(s: State, e: Entry): Event {
    Event(if EntryGuid(e) in s.table then Update else Discovery, EntryGuid(e), Fingerprint(e))
  }

  function Publish(s: State, event: Event): State {
    s.(published := s.published + [event])
  }

  function Store(s: State, e: Entry): State {
    s.(table := s.table[EntryGuid(e) := Fingerprint(e)])
  }

  function PolledEntry(s: State, e: Entry): State {
    if Unchanged(s, e) then s else Store(Publish(s, EventFor(s, e)), e)
  }

  function Polled(s: State, feed: seq<Entry>): State {
    if feed == [] then s else PolledEntry(Polled(s, feed[..|feed| - 1]), feed[|feed| - 1])
  }

  class SourcePoller {
    var table: map<Id, string>
    var published: seq<Event>

    constructor ()
      ensures Snapshot() == State(map[], [])
    {
      table, published := map[], [];
    }

    function Snapshot(): State
      reads this
    {
      State(table, published)
    }

    /** The loop of `_poll_one_source`; the result is `events_published`. */
    method Poll(feed: seq<Entry>) returns (eventsPublished: nat)
      modifies this
      ensures Snapshot() == Polled(old(Snapshot()), feed)
      ensures |published| == |old(published)| + eventsPublished
    {
      eventsPublished := 0;
      for i := 0 to |feed|
        invariant Snapshot() == Polled(old(Snapshot()), feed[..i])
        invariant |published| == |old(published)| + eventsPublished
      {
        var entry := feed[i];
        assert feed[..i + 1][..i] == feed[..i];
        var guid, fingerprint := EntryGuid(entry), Fingerprint(entry);
        if guid in table && table[guid] == fingerprint {
          continue;
        }
        var event := Event(if guid in table then Update else Discovery, guid, fingerprint);
        published := published + [event];
        table := table[guid := fingerprint];
        eventsPublished := eventsPublished + 1;
      }
      assert feed[..|feed|] == feed;
    }
  }

  // ---- Re-polling ----

  predicate GuidsAgree(feed: seq<Entry>) {
    forall i, j :: 0 <= i < j < |feed| && EntryGuid(feed[i]) == EntryGuid(feed[j]) ==>
      Fingerprint(feed[i]) == Fingerprint(feed[j])
  }

  lemma {:induction false} PollAppends(s: State, feed: seq<Entry>)
    ensures s.published <= Polled(s, feed).published
  {
    if feed != [] {
      PollAppends(s, feed[..|feed| - 1]);
    }
  }

  /** A poll that publishes nothing found every entry stored, and changed nothing at all. */
  lemma {:induction false} QuietFoundAllStored(s: State, feed: seq<Entry>)
    requires Polled(s, feed).published == s.published
    ensures Polled(s, feed) == s
    ensures forall i :: 0 <= i < |feed| ==> Unchanged(s, feed[i])
  {
    if feed != [] {
      var last := |feed| - 1;
      var prior := Polled(s, feed[..last]);
      PollAppends(s, feed[..last]);
      assert |prior.published| <= |Polled(s, feed).published|;
      QuietFoundAllStored(s, feed[..last]);
      forall i | 0 <= i < |feed| ensures Unchanged(s, feed[i]) {
        if i < last { assert feed[..last][i] == feed[i]; }
      }
    }
  }

  lemma {:induction false} StoredIsQuiet(s: State, feed: seq<Entry>)
    requires forall i :: 0 <= i < |feed| ==> Unchanged(s, feed[i])
    ensures Polled(s, feed) == s
  {
    if feed != [] {
      var last := |feed| - 1;
      assert forall i :: 0 <= i < last ==> feed[..last][i] == feed[i];
      StoredIsQuiet(s, feed[..last]);
    }
  }

  /** If equal guids carry equal content, a completed poll has stored every entry. */
  lemma {:induction false} PollStores(s: State, feed: seq<Entry>)
    requires GuidsAgree(feed)
    ensures forall i :: 0 <= i < |feed| ==> Unchanged(Polled(s, feed), feed[i])
  {
    if feed != [] {
      var last := |feed| - 1;
      var prior := feed[..last];
      assert forall i :: 0 <= i < last ==> prior[i] == feed[i];
      PollStores(s, prior);
      forall i | 0 <= i < |feed| ensures Unchanged(Polled(s, feed), feed[i]) {
        if i < last { assert Unchanged(Polled(s, prior), prior[i]); }
      }
    }
  }

  /** Polling an unchanged feed again publishes nothing exactly when no guid in it carries two
      different contents; distinct guids are one such case. */
  lemma RepollQuiet(s: State, feed: seq<Entry>)
    ensures Polled(Polled(s, feed), feed).published == Polled(s, feed).published <==> GuidsAgree(feed)
  {
    var once := Polled(s, feed);
    if Polled(once, feed).published == once.published {
      QuietFoundAllStored(once, feed);
      forall i, j | 0 <= i < j < |feed| && EntryGuid(feed[i]) == EntryGuid(feed[j])
        ensures Fingerprint(feed[i]) == Fingerprint(feed[j])
      {
        assert Unchanged(once, feed[i]) && Unchanged(once, feed[j]);
      }
    }
    if GuidsAgree(feed) {
      PollStores(s, feed);
      StoredIsQuiet(once, feed);
    }
  }

  /** The three fields are hashed run together: moving text across a field boundary is not a
      change the poller can see. */
  lemma MovedTextIsUnseen(s: State, id: string, a: string, b: string, c: string, link: string)
    requires id != ""
    ensures
      var before := Entry(Some(id), None, Some(a + b), Some(c), Some(link));
      var after := Entry(Some(id), None, Some(a), Some(b + c), Some(link));
      Polled(Polled(s, [before]), [after]) == Polled(s, [before])
  {
    var before := Entry(Some(id), None, Some(a + b), Some(c), Some(link));
    var after := Entry(Some(id), None, Some(a), Some(b + c), Some(link));
    assert (a + b) + c + link == a + (b + c) + link;
    assert Fingerprint(before) == Fingerprint(after);
    PollStores(s, [before]);
    assert Unchanged(Polled(s, [before]), [before][0]);
    StoredIsQuiet(Polled(s, [before]), [after]);
  }

  /** `e` and `f` differ in exactly one of title, summary and link. */
  predicate OneFieldChanged(e: Entry, f: Entry) {
    var t, s, l := e.title.GetOr("") != f.title.GetOr(""), e.summary.GetOr("") != f.summary.GetOr(""),
                   e.link.GetOr("") != f.link.GetOr("");
    (t && !s && !l) || (!t && s && !l) || (!t && !s && l)
  }

  lemma ChangedTextDiffers(a: string, x: string, y: string, b: string)
    requires x != y
    ensures a + x + b != a + y + b
  {
    if a + x + b == a + y + b {
      assert |x| == |y|;
      forall i | 0 <= i < |x| ensures x[i] == y[i] {
        assert (a + x + b)[|a| + i] == x[i] && (a + y + b)[|a| + i] == y[i];
      }
      assert false;
    }
  }

  lemma OneChangeShows(e: Entry, f: Entry)
    requires OneFieldChanged(e, f)
    ensures Fingerprint(e) != Fingerprint(f)
  {
    var t, s, l := e.title.GetOr(""), e.summary.GetOr(""), e.link.GetOr("");
    var t', s', l' := f.title.GetOr(""), f.summary.GetOr(""), f.link.GetOr("");
    if t != t' {
      ChangedTextDiffers("", t, t', s + l);
      assert "" + t + (s + l) == t + s + l && "" + t' + (s + l) == t' + s + l;
    } else if s != s' {
      ChangedTextDiffers(t, s, s', l);
    } else {
      ChangedTextDiffers(t + s, l, l', "");
      assert (t + s) + l + "" == t + s + l && (t + s) + l' + "" == t + s + l';
    }
  }

  /** An entry seen for the first time is published once, as a discovery; one of its text fields
      changed, it is published once more, as an update with the new content; unchanged, not. */
  lemma ChangeIsUpdate(s: State, e: Entry, f: Entry)
    requires EntryGuid(e) !in s.table && EntryGuid(f) == EntryGuid(e)
    ensures Polled(s, [e]).published == s.published + [Event(Discovery, EntryGuid(e), Fingerprint(e))]
    ensures Polled(Polled(s, [e]), [e]).published == Polled(s, [e]).published
    ensures OneFieldChanged(e, f) ==>
      && Fingerprint(f) != Fingerprint(e)
      && Polled(Polled(s, [e]), [f]).published
           == Polled(s, [e]).published + [Event(Update, EntryGuid(e), Fingerprint(f))]
  {
    OnePolled(s, e);
    OnePolled(Polled(s, [e]), e);
    OnePolled(Polled(s, [e]), f);
    if OneFieldChanged(e, f) {
      OneChangeShows(e, f);
    }
  }

  lemma OnePolled(s: State, e: Entry)
    ensures Polled(s, [e]) == PolledEntry(s, e)
  {
    assert [e][..0] == [];
    assert Polled(s, [e][..0]) == s;
  }

  /** An entry goes by its id, without one by its guid, and without either by its link. */
  lemma GuidFallsBack(id: string, guid: string, e: Entry)
    requires id != "" && guid != ""
    ensures EntryGuid(e.(id := Some(id))) == id
    ensures e.id.None? || e.id == Some("") ==>
      && EntryGuid(e.(guid := Some(guid))) == guid
      && (e.guid.None? || e.guid == Some("") ==> e.link.Some? ==> EntryGuid(e) == e.link.value)
  {
  }

  // ---- Crashes ----

  datatype Stage = Checking | Publishing | Storing

  datatype Run = Idle | At(feed: seq<Entry>, i: nat, stage: Stage)

  /** `completed` lists the feeds of the polls that ran to the end. */
  datatype Machine = Machine(s: State, run: Run, completed: seq<seq<Entry>>)

  datatype Action = Start(feed: seq<Entry>) | Check | PublishNow | StoreNow | Finish | Crash

  ghost predicate Next(m: Machine, m': Machine, a: Action) {
    match a
    case Start(feed) => m.run.Idle? && m' == m.(run := At(feed, 0, Checking))
    case Check =>
      && m.run.At? && m.run.stage.Checking? && m.run.i < |m.run.feed|
      && m' == m.(run := if Unchanged(m.s, m.run.feed[m.run.i]) then At(m.run.feed, m.run.i + 1, Checking)
                         else At(m.run.feed, m.run.i, Publishing))
    case PublishNow =>
      && m.run.At? && m.run.stage.Publishing? && m.run.i < |m.run.feed|
      && m' == m.(s := Publish(m.s, EventFor(m.s, m.run.feed[m.run.i])), run := At(m.run.feed, m.run.i, Storing))
    case StoreNow =>
      && m.run.At? && m.run.stage.Storing? && m.run.i < |m.run.feed|
      && m' == m.(s := Store(m.s, m.run.feed[m.run.i]), run := At(m.run.feed, m.run.i + 1, Checking))
    case Finish =>
      && m.run.At? && m.run.stage.Checking? && m.run.i == |m.run.feed|
      && m' == m.(run := Idle, completed := m.completed + [m.run.feed])
    case Crash => m' == m.(run := Idle)
  }

  ghost predicate Heard(published: seq<Event>, guid: Id, fingerprint: string) {
    exists k :: 0 <= k < |published| && published[k].guid == guid && published[k].fingerprint == fingerprint
  }

  ghost predicate Discovered(published: seq<Event>, guid: Id) {
    exists k :: 0 <= k < |published| && published[k].guid == guid && published[k].kind == Discovery
  }

  ghost predicate EntryHeard(published: seq<Event>, e: Entry) {
    Heard(published, EntryGuid(e), Fingerprint(e))
  }

  ghost predicate AllHeard(published: seq<Event>, feed: seq<Entry>, n: nat) {
    n <= |feed| && forall j :: 0 <= j < n ==> EntryHeard(published, feed[j])
  }

  ghost predicate Inv(m: Machine) {
    && (forall g :: g in m.s.table ==> Heard(m.s.published, g, m.s.table[g]) && Discovered(m.s.published, g))
    && (forall k :: 0 <= k < |m.s.published| && m.s.published[k].kind == Update ==>
          Discovered(m.s.published[..k], m.s.published[k].guid))
    && (m.run.At? ==> AllHeard(m.s.published, m.run.feed, m.run.i))
    && (m.run.At? && m.run.stage.Storing? ==>
          && m.run.i < |m.run.feed| && EntryHeard(m.s.published, m.run.feed[m.run.i])
          && Discovered(m.s.published, EntryGuid(m.run.feed[m.run.i])))
    && (forall c :: 0 <= c < |m.completed| ==> AllHeard(m.s.published, m.completed[c], |m.completed[c]|))
  }

  /** What has been heard stays heard. */
  lemma HeardGrows(published: seq<Event>, event: Event)
    ensures forall g, f :: Heard(published, g, f) ==> Heard(published + [event], g, f)
    ensures forall g :: Discovered(published, g) ==> Discovered(published + [event], g)
    ensures Heard(published + [event], event.guid, event.fingerprint)
    ensures event.kind == Discovery ==> Discovered(published + [event], event.guid)
    ensures forall k :: 0 <= k <= |published| ==> (published + [event])[..k] == published[..k]
  {
    var more := published + [event];
    forall g, f | Heard(published, g, f) ensures Heard(more, g, f) {
      var k :| 0 <= k < |published| && published[k].guid == g && published[k].fingerprint == f;
      assert more[k] == published[k];
    }
    forall g | Discovered(published, g) ensures Discovered(more, g) {
      var k :| 0 <= k < |published| && published[k].guid == g && published[k].kind == Discovery;
      assert more[k] == published[k];
    }
    assert more[|published|] == event;
  }

  lemma PublishKeepsInv(m: Machine, m': Machine)
    requires Inv(m) && Next(m, m', PublishNow)
    ensures Inv(m')
  {
    var e := m.run.feed[m.run.i];
    var event := EventFor(m.s, e);
    HeardGrows(m.s.published, event);
    forall k | 0 <= k < |m'.s.published| && m'.s.published[k].kind == Update
      ensures Discovered(m'.s.published[..k], m'.s.published[k].guid)
    {
      assert m'.s.published[..k] == m.s.published[..k];
      if k == |m.s.published| {
        assert m.s.published[..k] == m.s.published;
        assert EntryGuid(e) in m.s.table;
      }
    }
    forall c | 0 <= c < |m'.completed| ensures AllHeard(m'.s.published, m'.completed[c], |m'.completed[c]|) {
      assert AllHeard(m.s.published, m.completed[c], |m.completed[c]|);
    }
  }

  lemma NextKeepsInv(m: Machine, m': Machine, a: Action)
    requires Inv(m) && Next(m, m', a)
    ensures Inv(m')
  {
    match a
    case PublishNow => PublishKeepsInv(m, m');
    case Check =>
      if Unchanged(m.s, m.run.feed[m.run.i]) {
        assert EntryHeard(m.s.published, m.run.feed[m.run.i]);
      }
    case _ =>
  }

  ghost predicate Behaviour(ms: seq<Machine>, actions: seq<Action>) {
    && |ms| == |actions| + 1
    && ms[0] == Machine(State(map[], []), Idle, [])
    && forall i :: 0 <= i < |actions| ==> Next(ms[i], ms[i + 1], actions[i])
  }

  lemma {:induction false} BehaviourKeepsInv(ms: seq<Machine>, actions: seq<Action>, k: nat)
    requires Behaviour(ms, actions) && k <= |actions|
    ensures Inv(ms[k])
  {
    if k > 0 {
      BehaviourKeepsInv(ms, actions, k - 1);
      NextKeepsInv(ms[k - 1], ms[k], actions[k - 1]);
    }
  }

  /** Wherever polls crash and however often they are retried: a stored fingerprint has been
      published, a completed poll has published each entry of its feed, and an update follows
      a discovery of the same guid. */
  lemma NothingSeenIsUnheard(ms: seq<Machine>, actions: seq<Action>, k: nat)
    requires Behaviour(ms, actions) && k <= |actions|
    ensures forall g :: g in ms[k].s.table ==> Heard(ms[k].s.published, g, ms[k].s.table[g])
    ensures forall c :: 0 <= c < |ms[k].completed| ==>
      AllHeard(ms[k].s.published, ms[k].completed[c], |ms[k].completed[c]|)
    ensures forall j :: 0 <= j < |ms[k].s.published| && ms[k].s.published[j].kind == Update ==>
      Discovered(ms[k].s.published[..j], ms[k].s.published[j].guid)
  {
    BehaviourKeepsInv(ms, actions, k);
  }

  /** Why publishing comes first: had the fingerprint been stored before a crash, no later poll
      of the unchanged entry would ever publish it. */
  lemma StoringFirstSilences(s: State, e: Entry, polls: nat)
    requires !EntryHeard(s.published, e)
    ensures !EntryHeard(Polled(Store(s, e), seq(polls, _ => e)).published, e)
  {
    var stored := Store(s, e);
    StoredIsQuiet(stored, seq(polls, _ => e));
  }

  // ---- The loop and the machine ----

  ghost predicate Uncrashed(ms: seq<Machine>, actions: seq<Action>) {
    && |ms| == |actions| + 1
    && forall i :: 0 <= i < |actions| ==> Next(ms[i], ms[i + 1], actions[i]) && actions[i] != Crash
  }

  lemma UncrashedOn(ms: seq<Machine>, actions: seq<Action>, m: Machine, a: Action)
    requires Uncrashed(ms, actions) && Next(ms[|actions|], m, a) && a != Crash
    ensures Uncrashed(ms + [m], actions + [a]) && (ms + [m])[0] == ms[0]
    ensures |ms + [m]| == |actions + [a]| + 1 && (ms + [m])[|actions + [a]|] == m
  {
  }

  /** The machine's uncrashed steps for a whole feed end where the loop ends. */
  lemma {:induction false} UncrashedRunIsPoll(s: State, feed: seq<Entry>, n: nat, completed: seq<seq<Entry>>)
    returns (ms: seq<Machine>, actions: seq<Action>)
    requires n <= |feed|
    ensures Uncrashed(ms, actions) && ms[0] == Machine(s, At(feed, 0, Checking), completed)
    ensures ms[|actions|] == Machine(Polled(s, feed[..n]), At(feed, n, Checking), completed)
  {
    if n == 0 {
      ms, actions := [Machine(s, At(feed, 0, Checking), completed)], [];
    } else {
      ms, actions := UncrashedRunIsPoll(s, feed, n - 1, completed);
      assert feed[..n][..n - 1] == feed[..n - 1];
      var t := Polled(s, feed[..n - 1]);
      ms, actions := EntryPolled(ms, actions, t, feed, n - 1, completed);
    }
  }

  lemma EntryPolled(before: seq<Machine>, taken: seq<Action>, t: State, feed: seq<Entry>, n: nat,
                    completed: seq<seq<Entry>>)
    returns (ms: seq<Machine>, actions: seq<Action>)
    requires n < |feed| && Uncrashed(before, taken)
    requires before[|taken|] == Machine(t, At(feed, n, Checking), completed)
    ensures Uncrashed(ms, actions) && ms[0] == before[0]
    ensures ms[|actions|] == Machine(PolledEntry(t, feed[n]), At(feed, n + 1, Checking), completed)
  {
    var e := feed[n];
    var end := Machine(PolledEntry(t, e), At(feed, n + 1, Checking), completed);
    ms, actions := before, taken;
    if Unchanged(t, e) {
      UncrashedOn(ms, actions, end, Check);
      ms, actions := ms + [end], actions + [Check];
    } else {
      var m1 := Machine(t, At(feed, n, Publishing), completed);
      var m2 := Machine(Publish(t, EventFor(t, e)), At(feed, n, Storing), completed);
      UncrashedOn(ms, actions, m1, Check);
      ms, actions := ms + [m1], actions + [Check];
      UncrashedOn(ms, actions, m2, PublishNow);
      ms, actions := ms + [m2], actions + [PublishNow];
      UncrashedOn(ms, actions, end, StoreNow);
      ms, actions := ms + [end], actions + [StoreNow];
    }
  }

  /** Wherever a poll has got to, it can crash, be started again and run to its end: every entry
      of the feed is polled against what was stored by then. */
  lemma CrashedPollRecovers(m: Machine, feed: seq<Entry>) returns (ms: seq<Machine>, actions: seq<Action>)
    ensures |ms| == |actions| + 1 && |actions| >= 3 && ms[0] == m
    ensures actions[0] == Crash && actions[1] == Start(feed) && actions[|actions| - 1] == Finish
    ensures forall i :: 0 <= i < |actions| ==> Next(ms[i], ms[i + 1], actions[i])
    ensures forall i :: 0 < i < |actions| ==> actions[i] != Crash
    ensures ms[|actions|] == Machine(Polled(m.s, feed), Idle, m.completed + [feed])
  {
    var run, steps := UncrashedRunIsPoll(m.s, feed, |feed|, m.completed);
    assert feed[..|feed|] == feed;
    var end := Machine(Polled(m.s, feed), Idle, m.completed + [feed]);
    ms, actions := [m, m.(run := Idle)] + run + [end], [Crash, Start(feed)] + steps + [Finish];
    forall i | 0 <= i < |actions| ensures Next(ms[i], ms[i + 1], actions[i]) && (i > 0 ==> actions[i] != Crash) {
      if 2 <= i < |steps| + 2 {
        assert ms[i] == run[i - 2] && ms[i + 1] == run[i - 1] && actions[i] == steps[i - 2];
      }
    }
  }

  /** So any behaviour can go on with a crash and a completed poll of any feed. */
  lemma BehaviourRecovers(ms: seq<Machine>, actions: seq<Action>, feed: seq<Entry>)
    returns (ms': seq<Machine>, actions': seq<Action>)
    requires Behaviour(ms, actions)
    ensures Behaviour(ms', actions') && ms <= ms' && actions <= actions'
    ensures ms'[|actions'|].completed == ms[|actions|].completed + [feed]
    ensures ms'[|actions'|].s == Polled(ms[|actions|].s, feed)
  {
    var more, steps := CrashedPollRecovers(ms[|actions|], feed);
    ms', actions' := ms + more[1..], actions + steps;
    forall i | 0 <= i < |actions'| ensures Next(ms'[i], ms'[i + 1], actions'[i]) {
      if i < |actions| {
        assert ms'[i] == ms[i] && ms'[i + 1] == ms[i + 1] && actions'[i] == actions[i];
      } else {
        var j := i - |actions|;
        assert ms'[i] == more[j] && ms'[i + 1] == more[j + 1] && actions'[i] == steps[j];
      }
    }
  }
}
