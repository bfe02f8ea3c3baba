/**
 * How the events of one digest become its cards (packages/digest/src/cards.ts).
 * Scores and times are exact; texts and links are left out, so a card is its
 * representative event, the facts it shows and how many it leaves out.
 */
module DigestCards {
  import opened Wrappers

  const GROUPING_THRESHOLD := 7
  const MARKET_SECTION_LIMIT := 6
  const GROUP_FACTS_SHOWN := 3

  /** `facts` are the identifiers of the event's facts; `marketRank` is the rank of its kind. */
  datatype Event = Event(
    id: nat, isUrgent: bool, score: real, happenedAt: real, target: Option<nat>, facts: seq<nat>,
    hasImplication: bool, hasInterpretation: bool, isMarket: bool, marketRank: int)

  datatype Section = Main | Market

  datatype Card =
    | EventCard(eventId: nat, isUrgent: bool, facts: seq<nat>, notes: nat, section: Section)
    | GroupCard(eventId: nat, facts: seq<nat>, moreCount: nat)

  // ---- Sorting: `Array.prototype.sort` is stable

  /** Sort keys: by the first part, then by the second. */
  predicate KeyLess(a: (int, real), b: (int, real)) {
    a.0 < b.0 || (a.0 == b.0 && a.1 < b.1)
  }

  function ImportanceKey(e: Event): (int, real) {
    (if e.isUrgent then 0 else 1, -e.score)
  }

  function MarketKey(e: Event): (int, real) {
    (e.marketRank, -e.happenedAt)
  }

  /** Insert behind everything that does not sort after it. */
  function Insert(sorted: seq<Event>, e: Event, key: Event -> (int, real)): seq<Event> {
    if sorted == [] || KeyLess(key(e), key(sorted[0])) then [e] + sorted
    else [sorted[0]] + Insert(sorted[1..], e, key)
  }

  function SortBy(events: seq<Event>, key: Event -> (int, real)): seq<Event> {
    if events == [] then []
    else Insert(SortBy(events[..|events| - 1], key), events[|events| - 1], key)
  }

  ghost predicate Sorted(events: seq<Event>, key: Event -> (int, real)) {
    forall i, j :: 0 <= i < j < |events| ==> !KeyLess(key(events[j]), key(events[i]))
  }

  lemma {:induction false} InsertKeepsAll(sorted: seq<Event>, e: Event, key: Event -> (int, real))
    ensures multiset(Insert(sorted, e, key)) == multiset(sorted) + multiset{e}
  {
    if sorted != [] && !KeyLess(key(e), key(sorted[0])) {
      InsertKeepsAll(sorted[1..], e, key);
      assert sorted == [sorted[0]] + sorted[1..];
    }
  }

  lemma KeyOrder(a: (int, real), b: (int, real), c: (int, real))
    requires KeyLess(a, b) && !KeyLess(c, b)
    ensures !KeyLess(c, a) && !KeyLess(b, a)
  {
  }

  lemma SortedCons(e: Event, rest: seq<Event>, key: Event -> (int, real))
    requires Sorted(rest, key) && forall x :: x in rest ==> !KeyLess(key(x), key(e))
    ensures Sorted([e] + rest, key)
  {
    hide KeyLess;
  }

  lemma {:induction false} InsertSorts(sorted: seq<Event>, e: Event, key: Event -> (int, real))
    requires Sorted(sorted, key)
    ensures Sorted(Insert(sorted, e, key), key)
  {
    hide KeyLess;
    if sorted != [] && !KeyLess(key(e), key(sorted[0])) {
      InsertSorts(sorted[1..], e, key);
      var rest := Insert(sorted[1..], e, key);
      InsertKeepsAll(sorted[1..], e, key);
      forall x | x in rest ensures !KeyLess(key(x), key(sorted[0])) {
        assert x in multiset(rest);
      }
      SortedCons(sorted[0], rest, key);
    } else {
      forall x | x in sorted ensures !KeyLess(key(x), key(e)) {
        KeyAtHead(sorted, x, key);
        KeyOrder(key(e), key(sorted[0]), key(x));
      }
      SortedCons(e, sorted, key);
    }
  }

  lemma KeyAtHead(sorted: seq<Event>, x: Event, key: Event -> (int, real))
    requires Sorted(sorted, key) && x in sorted
    ensures !KeyLess(key(x), key(sorted[0]))
  {
  }

  lemma {:induction false} SortBySorts(events: seq<Event>, key: Event -> (int, real))
    ensures Sorted(SortBy(events, key), key)
    ensures multiset(SortBy(events, key)) == multiset(events)
    ensures |SortBy(events, key)| == |events|
  {
    if events != [] {
      var n := |events| - 1;
      SortBySorts(events[..n], key);
      InsertSorts(SortBy(events[..n], key), events[n], key);
      InsertKeepsAll(SortBy(events[..n], key), events[n], key);
      assert events == events[..n] + [events[n]];
    }
    assert |multiset(SortBy(events, key))| == |SortBy(events, key)|;
    assert |multiset(events)| == |events|;
  }

  function HasKey(key: Event -> (int, real), k: (int, real)): Event -> bool {
    (e: Event) => key(e) == k
  }

  /** Events with equal keys keep the order they came in. */
  lemma {:induction false} SortByIsStable(events: seq<Event>, key: Event -> (int, real), k: (int, real))
    ensures Filter(SortBy(events, key), HasKey(key, k)) == Filter(events, HasKey(key, k))
  {
    hide Insert, Sorted, Filter, HasKey;
    if events != [] {
      var n := |events| - 1;
      SortByIsStable(events[..n], key, k);
      SortBySorts(events[..n], key);
      InsertIsStable(SortBy(events[..n], key), events[n], key, k);
      FilterAppend(events[..n], [events[n]], HasKey(key, k));
      FilterSingle(events[n], key, k);
      assert events == events[..n] + [events[n]];
    }
  }

  lemma FilterSingle(e: Event, key: Event -> (int, real), k: (int, real))
    ensures Filter([e], HasKey(key, k)) == if key(e) == k then [e] else []
  {
    assert [e][1..] == [];
  }

  lemma {:induction false} InsertIsStable(sorted: seq<Event>, e: Event, key: Event -> (int, real), k: (int, real))
    requires Sorted(sorted, key)
    ensures Filter(Insert(sorted, e, key), HasKey(key, k))
      == Filter(sorted, HasKey(key, k)) + if key(e) == k then [e] else []
  {
    var p := HasKey(key, k);
    if sorted != [] && !KeyLess(key(e), key(sorted[0])) {
      InsertIsStable(sorted[1..], e, key, k);
      assert Insert(sorted, e, key)[1..] == Insert(sorted[1..], e, key);
    } else {
      assert Insert(sorted, e, key)[1..] == sorted;
      if key(e) == k {
        FilterNone(sorted, p);
      }
    }
  }

  function Filter(events: seq<Event>, p: Event -> bool): (r: seq<Event>)
    ensures forall e :: e in r <==> e in events && p(e)
  {
    if events == [] then []
    else (if p(events[0]) then [events[0]] else []) + Filter(events[1..], p)
  }

  lemma FilterNone(events: seq<Event>, p: Event -> bool)
    requires forall e :: e in events ==> !p(e)
    ensures Filter(events, p) == []
  {
    if events != [] {
      assert events[0] in events;
    }
  }

  lemma {:induction false} FilterAppend(a: seq<Event>, b: seq<Event>, p: Event -> bool)
    ensures Filter(a + b, p) == Filter(a, p) + Filter(b, p)
  {
    if a == [] {
      assert a + b == b;
    } else {
      assert (a + b)[1..] == a[1..] + b;
      FilterAppend(a[1..], b, p);
    }
  }

  // ---- Cards

  function EventCardFor(e: Event): (c: Card)
    ensures c.EventCard? && c.eventId == e.id && c.section == Main
  {
    EventCard(e.id, e.isUrgent, e.facts,
              (if e.hasImplication then 1 else 0) + (if e.hasInterpretation then 1 else 0), Main)
  }

  /** The first fact of each member that has one. */
  function FirstFacts(members: seq<Event>): seq<nat> {
    if members == [] then []
    else (if members[0].facts == [] then [] else [members[0].facts[0]]) + FirstFacts(members[1..])
  }

  function Take(s: seq<nat>, n: nat): seq<nat> {
    if |s| <= n then s else s[..n]
  }

  function GroupCardFor(members: seq<Event>): Card
    requires members != []
  {
    GroupCard(members[0].id, Take(FirstFacts(members), GROUP_FACTS_SHOWN),
              if |members| > GROUP_FACTS_SHOWN then |members| - GROUP_FACTS_SHOWN else 0)
  }

  function CardFor(members: seq<Event>): Card
    requires members != []
  {
    if |members| < 2 then EventCardFor(members[0]) else GroupCardFor(members)
  }

  predicate IsFoldable(e: Event) {
    e.target.Some? && !e.isUrgent
  }

  /** The two events go on one card. */
  predicate Together(a: Event, b: Event) {
    a == b || (IsFoldable(a) && IsFoldable(b) && a.target == b.target)
  }

  function SameGroup(e: Event): Event -> bool {
    (x: Event) => Together(e, x)
  }

  /** The events that share a card with `ordered[i]`. */
  function GroupOf(ordered: seq<Event>, i: nat): (members: seq<Event>)
    requires i < |ordered|
    ensures members != []
    ensures forall e :: e in members <==> e in ordered && Together(ordered[i], e)
  {
    assert ordered[i] in ordered && Together(ordered[i], ordered[i]);
    Filter(ordered, SameGroup(ordered[i]))
  }

  /** No earlier event shares a card with `ordered[i]`. */
  predicate IsLeader(ordered: seq<Event>, i: nat)
    requires i < |ordered|
  {
    forall j :: 0 <= j < i ==> !Together(ordered[i], ordered[j])
  }

  /** One card for each group, where its first event stands. */
  function FoldedCards(ordered: seq<Event>, n: nat): seq<Card>
    requires n <= |ordered|
  {
    if n == 0 then []
    else if IsLeader(ordered, n - 1) then FoldedCards(ordered, n - 1) + [CardFor(GroupOf(ordered, n - 1))]
    else FoldedCards(ordered, n - 1)
  }

  function MainCards(events: seq<Event>): seq<Card> {
    var ordered := SortBy(events, ImportanceKey);
    if |ordered| <= GROUPING_THRESHOLD then seq(|ordered|, i requires 0 <= i < |ordered| => EventCardFor(ordered[i]))
    else FoldedCards(ordered, |ordered|)
  }

  function MarketCardFor(e: Event): (c: Card)
    ensures c.EventCard? && c.eventId == e.id && c.section == Market
  {
    var card := EventCardFor(e);
    card.(section := Market)
  }

  function MarketCards(events: seq<Event>): seq<Card> {
    var ordered := SortBy(events, MarketKey);
    var shown := if |ordered| <= MARKET_SECTION_LIMIT then ordered else ordered[..MARKET_SECTION_LIMIT];
    seq(|shown|, i requires 0 <= i < |shown| => MarketCardFor(shown[i]))
  }

  function AssembleCards(events: seq<Event>): seq<Card> {
    MainCards(Filter(events, (e: Event) => !e.isMarket)) + MarketCards(Filter(events, (e: Event) => e.isMarket))
  }

  // ---- The fold, with a map of groups and a set of emitted events

  ghost predicate DistinctIds(events: seq<Event>) {
    forall i, j :: 0 <= i < j < |events| ==> events[i].id != events[j].id
  }

  function OfTarget(target: nat): Event -> bool {
    (e: Event) => IsFoldable(e) && e.target == Some(target)
  }

  function NotEmitted(emitted: set<nat>): Event -> bool {
    (e: Event) => e.id !in emitted
  }

  ghost predicate HasEarlier(ordered: seq<Event>, i: nat, e: Event)
    requires i <= |ordered|
  {
    exists l :: 0 <= l < i && Together(e, ordered[l])
  }

  /** The emitted events are those that share a group with one before `i`. */
  ghost predicate EmittedUpTo(ordered: seq<Event>, i: nat, emitted: set<nat>)
    requires i <= |ordered|
  {
    forall j :: 0 <= j < |ordered| ==>
      (ordered[j].id in emitted <==> HasEarlier(ordered, i, ordered[j]))
  }

  lemma FilterSame(events: seq<Event>, p: Event -> bool, q: Event -> bool)
    requires forall e :: e in events ==> p(e) == q(e)
    ensures Filter(events, p) == Filter(events, q)
  {
    if events != [] {
      assert events[0] in events;
      FilterSame(events[1..], p, q);
    }
  }

  lemma {:induction false} FilterAll(events: seq<Event>, p: Event -> bool)
    requires forall e :: e in events ==> p(e)
    ensures Filter(events, p) == events
  {
    if events != [] {
      assert events[0] in events;
      FilterAll(events[1..], p);
    }
  }

  lemma {:induction false} FilterOne(events: seq<Event>, i: nat)
    requires DistinctIds(events) && i < |events|
    ensures Filter(events, (x: Event) => x == events[i]) == [events[i]]
  {
    var p := (x: Event) => x == events[i];
    if i == 0 {
      assert forall x :: x in events[1..] ==> x.id != events[0].id;
      FilterNone(events[1..], p);
    } else {
      FilterOne(events[1..], i - 1);
      FilterSame(events[1..], p, (x: Event) => x == events[1..][i - 1]);
    }
  }

  /** At a leader, what the map holds and the set has not seen is exactly the leader's group. */
  lemma GroupAtLeader(ordered: seq<Event>, i: nat, emitted: set<nat>, foldable: seq<Event>)
    requires DistinctIds(ordered) && i < |ordered| && EmittedUpTo(ordered, i, emitted)
    requires ordered[i].id !in emitted
    requires foldable == if IsFoldable(ordered[i]) then Filter(ordered, OfTarget(ordered[i].target.value)) else []
    ensures IsLeader(ordered, i)
    ensures var members := Filter(foldable, NotEmitted(emitted));
      GroupOf(ordered, i) == if |members| < 2 then [ordered[i]] else members
  {
    hide Filter, DistinctIds;
    var e := ordered[i];
    assert !HasEarlier(ordered, i, e);
    if IsFoldable(e) {
      FilterSame(ordered, SameGroup(e), OfTarget(e.target.value));
      forall x | x in foldable
        ensures NotEmitted(emitted)(x)
      {
        var j :| 0 <= j < |ordered| && ordered[j] == x;
        assert !HasEarlier(ordered, i, x);
      }
      FilterAll(foldable, NotEmitted(emitted));
      assert e in foldable;
    } else {
      FilterOne(ordered, i);
      FilterSame(ordered, SameGroup(e), (x: Event) => x == e);
      FilterNone(foldable, NotEmitted(emitted));
    }
  }

  lemma EmittedNext(ordered: seq<Event>, i: nat, emitted: set<nat>, covered: seq<Event>)
    requires DistinctIds(ordered) && i < |ordered| && EmittedUpTo(ordered, i, emitted)
    requires ordered[i].id !in emitted && covered == GroupOf(ordered, i)
    ensures EmittedUpTo(ordered, i + 1, emitted + set e | e in covered :: e.id)
  {
    hide GroupOf;
    var emitted' := emitted + set e | e in covered :: e.id;
    forall j | 0 <= j < |ordered|
      ensures ordered[j].id in emitted' <==> HasEarlier(ordered, i + 1, ordered[j])
    {
      var e := ordered[j];
      assert e.id in (set x | x in covered :: x.id) <==> e in covered;
      assert HasEarlier(ordered, i + 1, e) <==> HasEarlier(ordered, i, e) || Together(e, ordered[i]);
    }
  }

  lemma TogetherVia(a: Event, b: Event, c: Event)
    ensures Together(a, b) && Together(b, c) ==> Together(a, c)
  {
  }

  lemma EmittedAlready(ordered: seq<Event>, i: nat, emitted: set<nat>)
    requires i < |ordered| && EmittedUpTo(ordered, i, emitted) && ordered[i].id in emitted
    ensures EmittedUpTo(ordered, i + 1, emitted) && !IsLeader(ordered, i)
  {
    hide Together;
    assert HasEarlier(ordered, i, ordered[i]);
    var l :| 0 <= l < i && Together(ordered[i], ordered[l]);
    forall j | 0 <= j < |ordered|
      ensures HasEarlier(ordered, i + 1, ordered[j]) <==> HasEarlier(ordered, i, ordered[j])
    {
      TogetherVia(ordered[j], ordered[i], ordered[l]);
    }
  }

  /** Sorting keeps identifiers distinct, so the fold may be run on sorted events. */
  lemma {:induction false} SortKeepsIdsDistinct(events: seq<Event>, key: Event -> (int, real))
    requires DistinctIds(events)
    ensures DistinctIds(SortBy(events, key))
  {
    if events != [] {
      var n := |events| - 1;
      SortKeepsIdsDistinct(events[..n], key);
      SortBySorts(events[..n], key);
      forall x | x in SortBy(events[..n], key) ensures x.id != events[n].id {
        assert x in multiset(events[..n]);
      }
      InsertKeepsIdsDistinct(SortBy(events[..n], key), events[n], key);
    }
  }

  lemma {:induction false} InsertKeepsIdsDistinct(sorted: seq<Event>, e: Event, key: Event -> (int, real))
    requires DistinctIds(sorted) && forall x :: x in sorted ==> x.id != e.id
    ensures DistinctIds(Insert(sorted, e, key))
    ensures forall x :: x in Insert(sorted, e, key) <==> x in sorted || x == e
  {
    if sorted != [] && !KeyLess(key(e), key(sorted[0])) {
      InsertKeepsIdsDistinct(sorted[1..], e, key);
      var rest := Insert(sorted[1..], e, key);
      forall x | x in rest ensures x.id != sorted[0].id {
        assert x in sorted[1..] || x == e;
      }
      assert sorted == [sorted[0]] + sorted[1..];
    }
  }

  lemma FoldNothing(ordered: seq<Event>)
    ensures FoldedCards(ordered, 0) == [] && EmittedUpTo(ordered, 0, {})
  {
  }

  /** One turn of the fold at an event not emitted yet. */
  lemma FoldCard(ordered: seq<Event>, i: nat, emitted: set<nat>, foldable: seq<Event>)
    requires DistinctIds(ordered) && i < |ordered| && EmittedUpTo(ordered, i, emitted)
    requires ordered[i].id !in emitted
    requires foldable == if IsFoldable(ordered[i]) then Filter(ordered, OfTarget(ordered[i].target.value)) else []
    ensures var members := Filter(foldable, NotEmitted(emitted));
      var covered := if |members| < 2 then [ordered[i]] else members;
      && EmittedUpTo(ordered, i + 1, emitted + set e | e in covered :: e.id)
      && FoldedCards(ordered, i + 1) == FoldedCards(ordered, i)
          + [if |members| < 2 then EventCardFor(ordered[i]) else GroupCardFor(members)]
  {
    hide Filter, DistinctIds, EmittedUpTo, GroupOf, IsLeader, GroupCardFor, EventCardFor;
    GroupAtLeader(ordered, i, emitted, foldable);
    EmittedNext(ordered, i, emitted, GroupOf(ordered, i));
  }

  /** One turn of the fold at an event some card already holds. */
  lemma FoldSkip(ordered: seq<Event>, i: nat, emitted: set<nat>)
    requires i < |ordered| && EmittedUpTo(ordered, i, emitted) && ordered[i].id in emitted
    ensures EmittedUpTo(ordered, i + 1, emitted) && FoldedCards(ordered, i + 1) == FoldedCards(ordered, i)
  {
    hide EmittedUpTo, IsLeader;
    EmittedAlready(ordered, i, emitted);
  }

  method FoldByTarget(ordered: seq<Event>) returns (cards: seq<Card>)
    requires DistinctIds(ordered)
    ensures cards == FoldedCards(ordered, |ordered|)
  {
    hide Filter, DistinctIds, FoldedCards, EmittedUpTo, GroupCardFor, EventCardFor;
    var byTarget: map<nat, seq<Event>> := map[];
    for i := 0 to |ordered|
      invariant forall t :: t in byTarget ==> byTarget[t] == Filter(ordered[..i], OfTarget(t))
      invariant forall j :: 0 <= j < i && IsFoldable(ordered[j]) ==> ordered[j].target.value in byTarget
    {
      var event := ordered[i];
      forall t: nat {
        TargetsAppend(ordered, i, t);
      }
      if event.target.Some? && !event.isUrgent {
        var target := event.target.value;
        if target !in byTarget {
          FilterNone(ordered[..i], OfTarget(target));
        }
        byTarget := byTarget[target := (if target in byTarget then byTarget[target] else []) + [event]];
      }
    }
    assert ordered[..|ordered|] == ordered;

    cards := [];
    var emitted: set<nat> := {};
    FoldNothing(ordered);
    for i := 0 to |ordered|
      invariant cards == FoldedCards(ordered, i)
      invariant EmittedUpTo(ordered, i, emitted)
    {
      var event := ordered[i];
      if event.id !in emitted {
        var foldable := if event.isUrgent || event.target == None then [] else byTarget[event.target.value];
        var members := Filter(foldable, NotEmitted(emitted));
        var covered := if |members| < 2 then [event] else members;
        FoldCard(ordered, i, emitted, foldable);
        cards := cards + [if |members| < 2 then EventCardFor(event) else GroupCardFor(members)];
        emitted := emitted + set e | e in covered :: e.id;
      } else {
        FoldSkip(ordered, i, emitted);
      }
    }
  }

  lemma TargetsAppend(ordered: seq<Event>, i: nat, target: nat)
    requires i < |ordered|
    ensures Filter(ordered[..i + 1], OfTarget(target))
      == Filter(ordered[..i], OfTarget(target)) + (if OfTarget(target)(ordered[i]) then [ordered[i]] else [])
  {
    assert ordered[..i + 1] == ordered[..i] + [ordered[i]];
    FilterAppend(ordered[..i], [ordered[i]], OfTarget(target));
  }

  // ---- What the digest keeps

  /** How many events a card accounts for: itself, or the facts it shows and those it counts. */
  function Weight(c: Card): nat {
    if c.EventCard? then 1 else |c.facts| + c.moreCount
  }

  function TotalWeight(cards: seq<Card>): nat {
    if cards == [] then 0 else TotalWeight(cards[..|cards| - 1]) + Weight(cards[|cards| - 1])
  }

  /** A group accounts for all its events exactly when enough of them have a fact to fill the card. */
  lemma GroupWeight(members: seq<Event>)
    requires |members| >= 2
    ensures Weight(CardFor(members)) == |members| <==>
      |FirstFacts(members)| >= (if |members| < GROUP_FACTS_SHOWN then |members| else GROUP_FACTS_SHOWN)
  {
    FirstFactsBound(members);
  }

  lemma {:induction false} FirstFactsBound(members: seq<Event>)
    ensures |FirstFacts(members)| <= |members|
    ensures (forall e :: e in members ==> e.facts != []) ==> |FirstFacts(members)| == |members|
  {
    if members != [] {
      assert members[0] in members;
      FirstFactsBound(members[1..]);
    }
  }

  ghost function Earlier(ordered: seq<Event>, n: nat): Event -> bool
    requires n <= |ordered|
  {
    (e: Event) => HasEarlier(ordered, n, e)
  }

  lemma {:induction false} FilterDisjoint(events: seq<Event>, p: Event -> bool, q: Event -> bool, r: Event -> bool)
    requires forall e :: e in events ==> (r(e) <==> p(e) || q(e)) && !(p(e) && q(e))
    ensures |Filter(events, r)| == |Filter(events, p)| + |Filter(events, q)|
  {
    if events != [] {
      assert events[0] in events;
      FilterDisjoint(events[1..], p, q, r);
    }
  }

  /** The cards emitted so far account for every event that shares a group with one seen so far. */
  lemma {:induction false} FoldedWeight(ordered: seq<Event>, n: nat)
    requires n <= |ordered|
    requires forall e :: e in ordered ==> e.facts != []
    ensures TotalWeight(FoldedCards(ordered, n)) == |Filter(ordered, Earlier(ordered, n))|
  {
    hide Filter, GroupOf, FirstFacts, IsLeader;
    if n == 0 {
      FilterNone(ordered, Earlier(ordered, 0));
    } else {
      FoldedWeight(ordered, n - 1);
      if IsLeader(ordered, n - 1) {
        LeaderWeight(ordered, n - 1);
        var before, card := FoldedCards(ordered, n - 1), CardFor(GroupOf(ordered, n - 1));
        assert (before + [card])[..|before|] == before;
      } else {
        NonLeaderAddsNothing(ordered, n - 1);
      }
    }
  }

  lemma NonLeaderAddsNothing(ordered: seq<Event>, i: nat)
    requires i < |ordered| && !IsLeader(ordered, i)
    ensures |Filter(ordered, Earlier(ordered, i + 1))| == |Filter(ordered, Earlier(ordered, i))|
  {
    hide Filter;
    var l :| 0 <= l < i && Together(ordered[i], ordered[l]);
    forall e | e in ordered
      ensures Earlier(ordered, i + 1)(e) == Earlier(ordered, i)(e)
    {
      assert Together(e, ordered[i]) ==> Together(e, ordered[l]);
    }
    FilterSame(ordered, Earlier(ordered, i + 1), Earlier(ordered, i));
  }

  lemma LeaderWeight(ordered: seq<Event>, i: nat)
    requires i < |ordered| && IsLeader(ordered, i)
    requires forall e :: e in ordered ==> e.facts != []
    ensures |Filter(ordered, Earlier(ordered, i + 1))|
      == |Filter(ordered, Earlier(ordered, i))| + Weight(CardFor(GroupOf(ordered, i)))
  {
    hide Filter, FirstFacts;
    var members := GroupOf(ordered, i);
    forall e | e in ordered
      ensures Earlier(ordered, i + 1)(e) <==> Earlier(ordered, i)(e) || SameGroup(ordered[i])(e)
      ensures !(Earlier(ordered, i)(e) && SameGroup(ordered[i])(e))
    {
      assert Together(e, ordered[i]) <==> Together(ordered[i], e);
      if Together(ordered[i], e) {
        assert forall l :: 0 <= l < i ==> !Together(ordered[i], ordered[l]);
      }
    }
    FilterDisjoint(ordered, Earlier(ordered, i), SameGroup(ordered[i]), Earlier(ordered, i + 1));
    FirstFactsBound(members);
    if |members| >= 2 {
      GroupWeight(members);
    }
  }

  lemma {:induction false} EventCardsWeight(cards: seq<Card>)
    requires forall i :: 0 <= i < |cards| ==> cards[i].EventCard?
    ensures TotalWeight(cards) == |cards|
  {
    if cards != [] {
      EventCardsWeight(cards[..|cards| - 1]);
    }
  }

  /** Folding loses and repeats nothing: the main cards account for each of the profile's own events once. */
  lemma MainCardsConserve(events: seq<Event>)
    requires forall e :: e in events ==> e.facts != []
    ensures TotalWeight(MainCards(events)) == |events|
  {
    hide SortBy, Filter, GroupOf, FoldedCards;
    var ordered := SortBy(events, ImportanceKey);
    SortBySorts(events, ImportanceKey);
    forall e | e in ordered ensures e.facts != [] {
      assert e in multiset(ordered);
    }
    if |ordered| <= GROUPING_THRESHOLD {
      EventCardsWeight(MainCards(events));
    } else {
      FoldedWeight(ordered, |ordered|);
      forall e | e in ordered ensures Earlier(ordered, |ordered|)(e) {
        var i :| 0 <= i < |ordered| && ordered[i] == e;
        assert Together(e, ordered[i]);
      }
      FilterAll(ordered, Earlier(ordered, |ordered|));
    }
  }

  /** The positions of the events that open a card. */
  function Leaders(ordered: seq<Event>, n: nat): (ls: seq<nat>)
    requires n <= |ordered|
    ensures forall k :: 0 <= k < |ls| ==> ls[k] < n && IsLeader(ordered, ls[k])
    ensures forall a, b :: 0 <= a < b < |ls| ==> ls[a] < ls[b]
    ensures forall i :: 0 <= i < n && IsLeader(ordered, i) ==> i in ls
  {
    if n == 0 then []
    else if IsLeader(ordered, n - 1) then Leaders(ordered, n - 1) + [n - 1]
    else Leaders(ordered, n - 1)
  }

  lemma {:induction false} FilterFirst(events: seq<Event>, p: Event -> bool, i: nat)
    requires i < |events| && p(events[i]) && forall j :: 0 <= j < i ==> !p(events[j])
    ensures Filter(events, p) != [] && Filter(events, p)[0] == events[i]
  {
    if i > 0 {
      FilterFirst(events[1..], p, i - 1);
    }
  }

  /** The cards are those of the leaders, in order, each under its leader's name. */
  ghost predicate AreCardsOf(ordered: seq<Event>, ls: seq<nat>, cards: seq<Card>) {
    && |cards| == |ls|
    && forall k :: 0 <= k < |ls| ==>
        ls[k] < |ordered| && cards[k] == CardFor(GroupOf(ordered, ls[k])) && cards[k].eventId == ordered[ls[k]].id
  }

  lemma CardAppended(ordered: seq<Event>, ls: seq<nat>, cards: seq<Card>, l: nat)
    requires AreCardsOf(ordered, ls, cards) && l < |ordered| && IsLeader(ordered, l)
    ensures AreCardsOf(ordered, ls + [l], cards + [CardFor(GroupOf(ordered, l))])
  {
    LeaderLeads(ordered, l);
    CardIsNamed(GroupOf(ordered, l));
    hide GroupOf, CardFor, IsLeader;
  }

  lemma {:induction false} CardsOfLeaders(ordered: seq<Event>, n: nat)
    requires n <= |ordered|
    ensures AreCardsOf(ordered, Leaders(ordered, n), FoldedCards(ordered, n))
  {
    hide IsLeader;
    if n > 0 {
      hide AreCardsOf, CardFor, GroupOf;
      CardsOfLeaders(ordered, n - 1);
      if IsLeader(ordered, n - 1) {
        CardAppended(ordered, Leaders(ordered, n - 1), FoldedCards(ordered, n - 1), n - 1);
      }
    }
  }

  lemma CardIsNamed(members: seq<Event>)
    requires members != []
    ensures CardFor(members).eventId == members[0].id
  {
    hide FirstFacts;
  }

  lemma TogetherItself(e: Event)
    ensures Together(e, e)
  {
  }

  lemma {:induction false} LeaderOf(ordered: seq<Event>, i: nat) returns (l: nat)
    requires i < |ordered|
    ensures l <= i && IsLeader(ordered, l) && Together(ordered[l], ordered[i])
  {
    if IsLeader(ordered, i) {
      l := i;
    } else {
      var j :| 0 <= j < i && Together(ordered[i], ordered[j]);
      l := LeaderOf(ordered, j);
    }
  }

  /** `a` may stand before `b`: urgent events come first, then those with a higher score. */
  predicate IsImportantBefore(a: Event, b: Event) {
    if a.isUrgent == b.isUrgent then a.score >= b.score else a.isUrgent
  }

  lemma ImportanceIsKeyOrder(a: Event, b: Event)
    ensures IsImportantBefore(a, b) <==> !KeyLess(ImportanceKey(b), ImportanceKey(a))
  {
  }

  /** Cards come in the order of importance of the events they open with: urgent ones first, then by score. */
  lemma CardsInImportanceOrder(ordered: seq<Event>, a: nat, b: nat)
    requires Sorted(ordered, ImportanceKey) && a < b < |Leaders(ordered, |ordered|)|
    ensures var ls, cards := Leaders(ordered, |ordered|), FoldedCards(ordered, |ordered|);
      && |cards| == |ls|
      && cards[a] == CardFor(GroupOf(ordered, ls[a])) && cards[a].eventId == ordered[ls[a]].id
      && cards[b] == CardFor(GroupOf(ordered, ls[b])) && cards[b].eventId == ordered[ls[b]].id
      && IsImportantBefore(ordered[ls[a]], ordered[ls[b]])
  {
    hide GroupOf, FoldedCards, Leaders, IsLeader, Together, FirstFacts;
    CardsOfLeaders(ordered, |ordered|);
    ImportanceIsKeyOrder(ordered[Leaders(ordered, |ordered|)[a]], ordered[Leaders(ordered, |ordered|)[b]]);
  }

  /**
   * Past the threshold every event is on exactly one card: on its own if it is
   * urgent or about no target, else with all the other non-urgent events of
   * its target.
   */
  lemma EveryEventOnOneCard(ordered: seq<Event>, i: nat) returns (k: nat)
    requires DistinctIds(ordered) && i < |ordered|
    ensures k < |Leaders(ordered, |ordered|)|
    ensures var group := GroupOf(ordered, Leaders(ordered, |ordered|)[k]);
      && ordered[i] in group
      && (!IsFoldable(ordered[i]) ==> group == [ordered[i]])
      && (IsFoldable(ordered[i]) ==> group == Filter(ordered, OfTarget(ordered[i].target.value)))
    ensures forall m :: 0 <= m < |Leaders(ordered, |ordered|)| ==>
      (ordered[i] in GroupOf(ordered, Leaders(ordered, |ordered|)[m]) ==> m == k)
  {
    var l := LeaderOf(ordered, i);
    var ls := Leaders(ordered, |ordered|);
    hide Leaders, IsLeader, GroupOf, Together, IsFoldable, DistinctIds;
    k :| 0 <= k < |ls| && ls[k] == l;
    GroupOfLeader(ordered, l, ordered[i]);
    forall m | 0 <= m < |ls| && ordered[i] in GroupOf(ordered, ls[m])
      ensures m == k
    {
      OneLeader(ordered, i, ls[m], l);
    }
  }

  /** Two events that both open a card for `ordered[i]` are the same one. */
  lemma OneLeader(ordered: seq<Event>, i: nat, a: nat, b: nat)
    requires i < |ordered| && a < |ordered| && b < |ordered|
    requires IsLeader(ordered, a) && IsLeader(ordered, b)
    requires Together(ordered[a], ordered[i]) && Together(ordered[b], ordered[i])
    ensures a == b
  {
    assert Together(ordered[a], ordered[b]) && Together(ordered[b], ordered[a]);
  }

  lemma GroupOfLeader(ordered: seq<Event>, l: nat, e: Event)
    requires DistinctIds(ordered) && l < |ordered| && e in ordered && Together(ordered[l], e)
    ensures var group := GroupOf(ordered, l);
      && (!IsFoldable(e) ==> group == [e])
      && (IsFoldable(e) ==> group == Filter(ordered, OfTarget(e.target.value)))
  {
    hide Filter;
    if IsFoldable(e) {
      FilterSame(ordered, SameGroup(ordered[l]), OfTarget(e.target.value));
    } else {
      FilterOne(ordered, l);
      FilterSame(ordered, SameGroup(ordered[l]), (x: Event) => x == ordered[l]);
    }
  }

  /** The events behind each main card, most important first. */
  function MainGroups(events: seq<Event>): seq<seq<Event>> {
    GroupsOf(SortBy(events, ImportanceKey))
  }

  function GroupsOf(ordered: seq<Event>): seq<seq<Event>> {
    if |ordered| <= GROUPING_THRESHOLD then seq(|ordered|, i requires 0 <= i < |ordered| => [ordered[i]])
    else
      var ls := Leaders(ordered, |ordered|);
      seq(|ls|, k requires 0 <= k < |ls| => GroupOf(ordered, ls[k]))
  }

  /** The card of a single event: all its facts, and a note for each of its two texts that it has. */
  ghost predicate IsCardOf(c: Card, e: Event, section: Section) {
    && c.EventCard? && c.section == section
    && c.eventId == e.id && c.isUrgent == e.isUrgent && c.facts == e.facts
    && c.notes <= 2
    && (c.notes == 2 <==> e.hasImplication && e.hasInterpretation)
    && (c.notes == 0 <==> !e.hasImplication && !e.hasInterpretation)
  }

  /**
   * The card of several events: under the first one's name, the first fact of
   * the first three members that have one, and how many events there are beyond three.
   */
  ghost predicate IsGroupCardOf(c: Card, members: seq<Event>)
    requires members != []
  {
    var withFacts := Filter(members, (e: Event) => e.facts != []);
    && c.GroupCard? && c.eventId == members[0].id
    && c.moreCount == (if |members| < 3 then 0 else |members| - 3)
    && |c.facts| == (if |withFacts| < 3 then |withFacts| else 3)
    && forall i :: 0 <= i < |c.facts| ==> withFacts[i].facts != [] && c.facts[i] == withFacts[i].facts[0]
  }

  lemma {:induction false} FirstFactsAre(members: seq<Event>)
    ensures var withFacts := Filter(members, (e: Event) => e.facts != []);
      && |FirstFacts(members)| == |withFacts|
      && forall i :: 0 <= i < |withFacts| ==>
          withFacts[i].facts != [] && FirstFacts(members)[i] == withFacts[i].facts[0]
  {
    if members != [] {
      FirstFactsAre(members[1..]);
    }
  }

  lemma CardShows(members: seq<Event>)
    requires members != []
    ensures var c := CardFor(members);
      if |members| == 1 then IsCardOf(c, members[0], Main) else IsGroupCardOf(c, members)
  {
    hide FirstFacts, Filter;
    FirstFactsAre(members);
  }

  lemma MainCardIs(events: seq<Event>, k: nat)
    requires k < |MainGroups(events)|
    ensures |MainCards(events)| == |MainGroups(events)| && MainGroups(events)[k] != []
    ensures MainCards(events)[k] == CardFor(MainGroups(events)[k])
  {
    hide SortBy, GroupOf, Leaders, FoldedCards, FirstFacts;
    var ordered := SortBy(events, ImportanceKey);
    if |ordered| > GROUPING_THRESHOLD {
      CardsOfLeaders(ordered, |ordered|);
    }
  }

  /** On both sides of the threshold each main card shows its group under the name of the group's first event. */
  lemma MainCardShowsGroup(events: seq<Event>, k: nat)
    requires k < |MainGroups(events)|
    ensures |MainCards(events)| == |MainGroups(events)| && MainGroups(events)[k] != []
    ensures var c, members := MainCards(events)[k], MainGroups(events)[k];
      if |members| == 1 then IsCardOf(c, members[0], Main) else IsGroupCardOf(c, members)
  {
    hide MainCards, MainGroups, CardFor, IsCardOf, IsGroupCardOf;
    MainCardIs(events, k);
    CardShows(MainGroups(events)[k]);
  }

  lemma LeaderLeads(ordered: seq<Event>, l: nat)
    requires l < |ordered| && IsLeader(ordered, l)
    ensures GroupOf(ordered, l)[0] == ordered[l]
  {
    TogetherItself(ordered[l]);
    hide Filter, Together;
    FilterFirst(ordered, SameGroup(ordered[l]), l);
  }

  /** And the cards come in order of the events they open with: urgent ones first, then by score. */
  lemma MainCardsInOrder(events: seq<Event>, a: nat, b: nat)
    requires a < b < |MainGroups(events)|
    ensures MainGroups(events)[a] != [] && MainGroups(events)[b] != []
    ensures IsImportantBefore(MainGroups(events)[a][0], MainGroups(events)[b][0])
  {
    hide SortBy, GroupOf, Leaders, IsLeader;
    var ordered := SortBy(events, ImportanceKey);
    SortBySorts(events, ImportanceKey);
    if |ordered| > GROUPING_THRESHOLD {
      var ls := Leaders(ordered, |ordered|);
      LeaderLeads(ordered, ls[a]);
      LeaderLeads(ordered, ls[b]);
    }
    ImportanceIsKeyOrder(MainGroups(events)[a][0], MainGroups(events)[b][0]);
  }

  /**
   * Each of the profile's own events is behind exactly one main card. Up to
   * seven events, and always when it is urgent or about no target, it is
   * alone there; past that, with all the non-urgent events of its target.
   */
  lemma OwnEventOnOneCard(events: seq<Event>, e: Event) returns (k: nat)
    requires DistinctIds(events) && e in events
    ensures k < |MainGroups(events)| && e in MainGroups(events)[k]
    ensures forall m :: 0 <= m < |MainGroups(events)| && e in MainGroups(events)[m] ==> m == k
    ensures |events| <= 7 || e.isUrgent || e.target == None ==> MainGroups(events)[k] == [e]
    ensures |events| > 7 && !e.isUrgent && e.target.Some? ==>
      forall x :: x in MainGroups(events)[k] <==> x in events && x.target == e.target && !x.isUrgent
  {
    hide SortBy, GroupsOf, DistinctIds;
    var ordered := SortBy(events, ImportanceKey);
    SortBySorts(events, ImportanceKey);
    SortKeepsIdsDistinct(events, ImportanceKey);
    SameElements(events, ordered);
    var i :| 0 <= i < |ordered| && ordered[i] == e;
    k := SortedEventOnOneCard(ordered, i);
  }

  lemma SortedEventOnOneCard(ordered: seq<Event>, i: nat) returns (k: nat)
    requires DistinctIds(ordered) && i < |ordered|
    ensures var groups, e := GroupsOf(ordered), ordered[i];
      && k < |groups| && e in groups[k]
      && (forall m :: 0 <= m < |groups| && e in groups[m] ==> m == k)
      && (|ordered| <= 7 || e.isUrgent || e.target == None ==> groups[k] == [e])
      && (|ordered| > 7 && !e.isUrgent && e.target.Some? ==>
            forall x :: x in groups[k] <==> x in ordered && x.target == e.target && !x.isUrgent)
  {
    hide GroupOf, Leaders, Filter;
    if |ordered| <= GROUPING_THRESHOLD {
      k := i;
    } else {
      hide DistinctIds;
      k := EveryEventOnOneCard(ordered, i);
    }
  }

  lemma SameElements(a: seq<Event>, b: seq<Event>)
    requires multiset(a) == multiset(b)
    ensures forall x :: x in a <==> x in b
  {
    assert forall x :: x in a <==> x in multiset(a);
    assert forall x :: x in b <==> x in multiset(b);
  }

  /** `a` may stand before `b`: a lower rank comes first, then what happened later. */
  predicate IsMarketBefore(a: Event, b: Event) {
    a.marketRank < b.marketRank || (a.marketRank == b.marketRank && a.happenedAt >= b.happenedAt)
  }

  lemma MarketCardIs(c: Card, e: Event)
    ensures IsCardOf(c, e, Market) <==> c == MarketCardFor(e)
  {
  }

  /** At most six market cards, by rank and then by time; what was dropped never outranks what is shown. */
  lemma MarketCardsAreBest(events: seq<Event>) returns (shown: seq<Event>, dropped: seq<Event>)
    ensures multiset(shown) + multiset(dropped) == multiset(events)
    ensures |MarketCards(events)| == |shown| <= 6
    ensures dropped != [] ==> |shown| == 6
    ensures forall i :: 0 <= i < |shown| ==> IsCardOf(MarketCards(events)[i], shown[i], Market)
    ensures forall i, j :: 0 <= i < j < |shown| ==> IsMarketBefore(shown[i], shown[j])
    ensures forall a, b :: a in shown && b in dropped ==> IsMarketBefore(a, b)
  {
    var ordered := SortBy(events, MarketKey);
    SortBySorts(events, MarketKey);
    hide SortBy;
    var n := if |ordered| <= MARKET_SECTION_LIMIT then |ordered| else MARKET_SECTION_LIMIT;
    shown, dropped := ordered[..n], ordered[n..];
    assert ordered == shown + dropped;
    assert forall a, b :: IsMarketBefore(a, b) <==> !KeyLess(MarketKey(b), MarketKey(a));
    forall i | 0 <= i < n
      ensures IsCardOf(MarketCards(events)[i], shown[i], Market)
    {
      MarketCardIs(MarketCardFor(shown[i]), shown[i]);
    }
    forall a, b | a in shown && b in dropped
      ensures IsMarketBefore(a, b)
    {
      var i :| 0 <= i < n && ordered[i] == a;
      var j :| n <= j < |ordered| && ordered[j] == b;
    }
  }

  // ---- Which market events are shown

  function KeyBelow(key: Event -> (int, real), k: (int, real)): Event -> bool {
    (e: Event) => KeyLess(key(e), k)
  }

  function KeyUpTo(key: Event -> (int, real), k: (int, real)): Event -> bool {
    (e: Event) => !KeyLess(k, key(e))
  }

  /** How many events come before `events[j]` in the order: those with a lower key, and earlier ones with its key. */
  function Rank(events: seq<Event>, j: nat, key: Event -> (int, real)): nat
    requires j < |events|
  {
    var k := key(events[j]);
    |Filter(events, KeyBelow(key, k))| + |Filter(events[..j], HasKey(key, k))|
  }

  /** Where a new event is put: behind exactly those whose key is not above its own. */
  lemma {:induction false} InsertPosition(sorted: seq<Event>, e: Event, key: Event -> (int, real)) returns (p: nat)
    requires Sorted(sorted, key)
    ensures p <= |sorted| && Insert(sorted, e, key) == sorted[..p] + [e] + sorted[p..]
    ensures forall q :: 0 <= q < |sorted| ==> (q < p <==> !KeyLess(key(e), key(sorted[q])))
  {
    if sorted == [] || KeyLess(key(e), key(sorted[0])) {
      p := 0;
      forall q | 0 <= q < |sorted| ensures KeyLess(key(e), key(sorted[q])) {
        KeyAtHead(sorted, sorted[q], key);
        KeyChain(key(e), key(sorted[0]), key(sorted[q]));
      }
    } else {
      p := InsertPosition(sorted[1..], e, key);
      p := p + 1;
      assert sorted == [sorted[0]] + sorted[1..];
      assert sorted[..p] == [sorted[0]] + sorted[1..][..p - 1] && sorted[p..] == sorted[1..][p - 1..];
      assert forall q :: 0 < q < |sorted| ==> sorted[q] == sorted[1..][q - 1];
    }
  }

  lemma KeyChain(a: (int, real), b: (int, real), c: (int, real))
    requires KeyLess(a, b) && !KeyLess(c, b)
    ensures KeyLess(a, c)
  {
  }

  lemma {:induction false} FilterOfInsert(sorted: seq<Event>, e: Event, key: Event -> (int, real), p: Event -> bool)
    ensures |Filter(Insert(sorted, e, key), p)| == |Filter(sorted, p)| + if p(e) then 1 else 0
  {
    if sorted == [] || KeyLess(key(e), key(sorted[0])) {
      assert ([e] + sorted)[1..] == sorted;
    } else {
      FilterOfInsert(sorted[1..], e, key, p);
      assert ([sorted[0]] + Insert(sorted[1..], e, key))[1..] == Insert(sorted[1..], e, key);
    }
  }

  lemma FilterLast(events: seq<Event>, e: Event, p: Event -> bool)
    ensures |Filter(events + [e], p)| == |Filter(events, p)| + if p(e) then 1 else 0
  {
    FilterAppend(events, [e], p);
    assert [e][1..] == [];
  }

  lemma {:induction false} FilterOfSort(events: seq<Event>, key: Event -> (int, real), p: Event -> bool)
    ensures |Filter(SortBy(events, key), p)| == |Filter(events, p)|
  {
    hide Filter, Insert;
    if events != [] {
      var n := |events| - 1;
      FilterOfSort(events[..n], key, p);
      FilterOfInsert(SortBy(events[..n], key), events[n], key, p);
      FilterLast(events[..n], events[n], p);
      assert events[..n] + [events[n]] == events;
    }
  }

  /** A filter that holds of exactly the first `p` elements has `p` of them. */
  lemma FilterOfPrefix(events: seq<Event>, p: nat, keep: Event -> bool)
    requires p <= |events| && forall q :: 0 <= q < |events| ==> (q < p <==> keep(events[q]))
    ensures |Filter(events, keep)| == p
  {
    assert events == events[..p] + events[p..];
    FilterAppend(events[..p], events[p..], keep);
    FilterAll(events[..p], keep);
    FilterNone(events[p..], keep);
  }

  /** Sorting puts each event at its rank. */
  lemma {:induction false} RankIsPosition(events: seq<Event>, j: nat, key: Event -> (int, real))
    requires j < |events|
    ensures Rank(events, j, key) < |events| == |SortBy(events, key)|
    ensures SortBy(events, key)[Rank(events, j, key)] == events[j]
  {
    hide Filter, Rank, Insert, Sorted;
    var n := |events| - 1;
    var sorted := SortBy(events[..n], key);
    SortBySorts(events[..n], key);
    SortBySorts(events, key);
    var p := InsertPosition(sorted, events[n], key);
    if j == n {
      RankOfLast(events, p, key);
    } else {
      RankIsPosition(events[..n], j, key);
      RankOfEarlier(events, j, key);
      assert sorted[Rank(events[..n], j, key)] == events[j];
    }
  }

  /** A new last event ranks behind those whose key is not above its own. */
  lemma RankOfLast(events: seq<Event>, p: nat, key: Event -> (int, real))
    requires events != []
    requires var n := |events| - 1;
      var sorted := SortBy(events[..n], key);
      p <= |sorted| && forall q :: 0 <= q < |sorted| ==> (q < p <==> !KeyLess(key(events[n]), key(sorted[q])))
    ensures Rank(events, |events| - 1, key) == p
  {
    hide Filter, SortBy, KeyLess;
    var n := |events| - 1;
    var before, k := events[..n], key(events[n]);
    FilterOfPrefix(SortBy(before, key), p, KeyUpTo(key, k));
    FilterOfSort(before, key, KeyUpTo(key, k));
    KeysUpTo(before, key, k);
    assert events == before + [events[n]];
    FilterLast(before, events[n], KeyBelow(key, k));
    assert !KeyLess(k, k) by { NotBelowItself(k); }
  }

  lemma NotBelowItself(k: (int, real))
    ensures !KeyLess(k, k)
  {
  }

  /** A new last event moves an earlier one on by one exactly if its key is lower. */
  lemma RankOfEarlier(events: seq<Event>, j: nat, key: Event -> (int, real))
    requires j < |events| - 1
    ensures var n := |events| - 1;
      Rank(events, j, key) == Rank(events[..n], j, key) + if KeyLess(key(events[n]), key(events[j])) then 1 else 0
  {
    hide Filter, KeyLess;
    var n := |events| - 1;
    assert events == events[..n] + [events[n]] && events[..n][..j] == events[..j];
    FilterLast(events[..n], events[n], KeyBelow(key, key(events[j])));
  }

  lemma KeysUpTo(events: seq<Event>, key: Event -> (int, real), k: (int, real))
    ensures |Filter(events, KeyUpTo(key, k))|
      == |Filter(events, KeyBelow(key, k))| + |Filter(events, HasKey(key, k))|
  {
    FilterDisjoint(events, KeyBelow(key, k), HasKey(key, k), KeyUpTo(key, k));
  }

  /** The event is of a lower rank, or of the same rank and later. */
  function Outranks(e: Event): Event -> bool {
    (x: Event) => x.marketRank < e.marketRank || (x.marketRank == e.marketRank && x.happenedAt > e.happenedAt)
  }

  function SameRankAndTime(e: Event): Event -> bool {
    (x: Event) => x.marketRank == e.marketRank && x.happenedAt == e.happenedAt
  }

  lemma MarketKeyIs(a: Event, b: Event)
    ensures KeyLess(MarketKey(a), MarketKey(b)) <==> Outranks(b)(a)
    ensures MarketKey(a) == MarketKey(b) <==> SameRankAndTime(b)(a)
  {
    assert -a.happenedAt == -b.happenedAt <==> a.happenedAt == b.happenedAt;
  }

  lemma MarketRankIs(market: seq<Event>, j: nat)
    requires j < |market|
    ensures Rank(market, j, MarketKey)
      == |Filter(market, Outranks(market[j]))| + |Filter(market[..j], SameRankAndTime(market[j]))|
  {
    hide Filter;
    var k := MarketKey(market[j]);
    forall e | e in market
      ensures KeyBelow(MarketKey, k)(e) == Outranks(market[j])(e)
      ensures HasKey(MarketKey, k)(e) == SameRankAndTime(market[j])(e)
    {
      MarketKeyIs(e, market[j]);
    }
    FilterSame(market, KeyBelow(MarketKey, k), Outranks(market[j]));
    FilterSame(market[..j], HasKey(MarketKey, k), SameRankAndTime(market[j]));
  }

  /**
   * An event of the market section is shown exactly when fewer than six of
   * them outrank it or come before it with its rank and time. Whether it is
   * urgent does not matter: urgent ones are not left out, though they went out
   * on their own.
   */
  lemma MarketEventShownExactly(events: seq<Event>, j: nat)
    requires DistinctIds(events) && j < |Filter(events, (e: Event) => e.isMarket)|
    ensures var market := Filter(events, (e: Event) => e.isMarket);
      (exists c :: c in AssembleCards(events) && IsCardOf(c, market[j], Market)) <==>
        |Filter(market, Outranks(market[j]))| + |Filter(market[..j], SameRankAndTime(market[j]))| < 6
  {
    var market := Filter(events, (e: Event) => e.isMarket);
    FilterKeepsIdsDistinct(events, (e: Event) => e.isMarket);
    MarketCardShownExactly(market, j);
    MarketRankIs(market, j);
    var own := Filter(events, (e: Event) => !e.isMarket);
    forall c | c in AssembleCards(events)
      ensures IsCardOf(c, market[j], Market) <==> c == MarketCardFor(market[j])
    {
      MarketCardIs(c, market[j]);
    }
    MarketCardIs(MarketCardFor(market[j]), market[j]);
    hide Filter, Rank, MainCards, MarketCards, IsCardOf;
    assert AssembleCards(events) == MainCards(own) + MarketCards(market);
    forall i | 0 <= i < |MainCards(own)| ensures MainCards(own)[i] != MarketCardFor(market[j]) {
      MarketIsSuffix(events, i);
      assert AssembleCards(events)[i] == MainCards(own)[i];
    }
  }

  /** So an urgent rule that is alone in the market section is shown there. */
  lemma UrgentRuleIsShown(e: Event)
    requires e.isMarket && e.isUrgent
    ensures |AssembleCards([e])| == 1 && IsCardOf(AssembleCards([e])[0], e, Market)
    ensures AssembleCards([e])[0].isUrgent
  {
    assert [e][..0] == [] && SortBy([e], MarketKey) == [e];
    hide Filter, SortBy;
    FilterAll([e], (x: Event) => x.isMarket);
    FilterNone([e], (x: Event) => !x.isMarket);
    assert MarketCards([e]) == [MarketCardFor(e)];
    NoMainCards();
  }

  lemma NoMainCards()
    ensures MainCards([]) == []
  {
  }

  lemma MarketCardShownExactly(market: seq<Event>, j: nat)
    requires DistinctIds(market) && j < |market|
    ensures MarketCardFor(market[j]) in MarketCards(market) <==> Rank(market, j, MarketKey) < MARKET_SECTION_LIMIT
  {
    var ordered, rank := SortBy(market, MarketKey), Rank(market, j, MarketKey);
    SortKeepsIdsDistinct(market, MarketKey);
    RankIsPosition(market, j, MarketKey);
    hide SortBy, Rank, MarketCardFor, MarketKey, EventCardFor;
    var cards := MarketCards(market);
    if rank < MARKET_SECTION_LIMIT {
      assert cards[rank] == MarketCardFor(market[j]);
    }
    forall i | 0 <= i < |cards| && cards[i] == MarketCardFor(market[j])
      ensures rank < MARKET_SECTION_LIMIT
    {
      assert cards[i] == MarketCardFor(ordered[i]);
      assert ordered[i].id == ordered[rank].id;
      assert i < MARKET_SECTION_LIMIT;
    }
  }

  lemma {:induction false} FilterKeepsIdsDistinct(events: seq<Event>, p: Event -> bool)
    requires DistinctIds(events)
    ensures DistinctIds(Filter(events, p))
  {
    if events != [] {
      FilterKeepsIdsDistinct(events[1..], p);
      var rest := Filter(events[1..], p);
      forall x | x in rest ensures x.id != events[0].id {
        assert x in events[1..];
      }
    }
  }

  lemma MainCardIsMain(events: seq<Event>, i: nat)
    requires i < |MainCards(events)|
    ensures MainCards(events)[i].EventCard? ==> MainCards(events)[i].section == Main
  {
    hide SortBy, GroupOf, FoldedCards;
    var ordered := SortBy(events, ImportanceKey);
    if |ordered| > GROUPING_THRESHOLD {
      FoldedInMain(ordered, |ordered|);
    }
  }

  lemma MarketCardIsMarket(events: seq<Event>, i: nat)
    requires i < |MarketCards(events)|
    ensures MarketCards(events)[i].EventCard? && MarketCards(events)[i].section == Market
  {
    hide SortBy;
    assert MarketCards(events)[i] == MarketCardFor(SortBy(events, MarketKey)[i]);
  }

  /** The digest is its own part followed by its market part, which is the suffix of market cards. */
  lemma MarketIsSuffix(events: seq<Event>, i: nat)
    requires i < |AssembleCards(events)|
    ensures var main := MainCards(Filter(events, (e: Event) => !e.isMarket));
      var market := MarketCards(Filter(events, (e: Event) => e.isMarket));
      var c := AssembleCards(events)[i];
      && |AssembleCards(events)| == |main| + |market|
      && c == (if i < |main| then main[i] else market[i - |main|])
      && (c.EventCard? && c.section == Market <==> i >= |main|)
  {
    var own, market := Filter(events, (e: Event) => !e.isMarket), Filter(events, (e: Event) => e.isMarket);
    hide Filter, MainCards, MarketCards;
    if i < |MainCards(own)| {
      MainCardIsMain(own, i);
    } else {
      MarketCardIsMarket(market, i - |MainCards(own)|);
    }
  }

  lemma {:induction false} FoldedInMain(ordered: seq<Event>, n: nat)
    requires n <= |ordered|
    ensures forall k :: 0 <= k < |FoldedCards(ordered, n)| ==>
      FoldedCards(ordered, n)[k].EventCard? ==> FoldedCards(ordered, n)[k].section == Main
  {
    hide GroupOf, IsLeader;
    if n > 0 {
      FoldedInMain(ordered, n - 1);
    }
  }
}
