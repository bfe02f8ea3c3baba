/**
 * The Telegram long-poll loop (apps/worker/src/telegram-polling.ts) against a
 * server that keeps its updates in ascending order of identifier and answers
 * with those from the offset on.
 */
module Polling {
  import opened Wrappers

  /** What happens in one turn of the loop: the fetch throws, or it brings some updates and handling may throw. */
  datatype Turn = FetchThrows | Fetched(size: nat, throwsAt: Option<nat>)

  ghost predicate Ascending(updates: seq<int>) {
    forall i, j :: 0 <= i < j < |updates| ==> updates[i] < updates[j]
  }

  /** How many updates lie below the offset; without an offset the server starts at the first it holds. */
  function Acknowledged(updates: seq<int>, offset: Option<int>): (n: nat)
    ensures n <= |updates|
    ensures offset == None ==> n == 0
    ensures offset.Some? ==> forall i :: 0 <= i < n ==> updates[i] < offset.value
    ensures offset.Some? && n < |updates| ==> updates[n] >= offset.value
  {
    if offset == None || updates == [] || updates[0] >= offset.value then 0
    else 1 + Acknowledged(updates[1..], offset)
  }

  /** `getUpdates`: the updates from the offset on, as many as this answer carries. */
  function GetUpdates(updates: seq<int>, offset: Option<int>, size: nat): seq<int> {
    var start := Acknowledged(updates, offset);
    updates[start..if start + size <= |updates| then start + size else |updates|]
  }

  /** How many updates one turn hands to the handler: those before the throw, and the one that throws. */
  function Handled(left: nat, turn: Turn): (n: nat)
    ensures n <= left
  {
    match turn
    case FetchThrows => 0
    case Fetched(size, throwsAt) =>
      var batch := if size <= left then size else left;
      if throwsAt.Some? && throwsAt.value < batch then throwsAt.value + 1 else batch
  }

  /** How far the handler has come after these turns. */
  function Reached(total: nat, from: nat, turns: seq<Turn>): (n: nat)
    requires from <= total
    ensures from <= n <= total
    decreases |turns|
  {
    if turns == [] then from else Reached(total, from + Handled(total - from, turns[0]), turns[1..])
  }

  class Poller {
    var offset: Option<int>
    /** The handler's invocations, in order. */
    var handled: seq<int>

    constructor ()
      ensures offset == None && handled == []
    {
      offset, handled := None, [];
    }

    ghost predicate Valid(updates: seq<int>)
      reads this
    {
      && handled <= updates
      && offset == OffsetBehind(handled)
    }

    /** One batch: the offset moves before the handler runs; a throw abandons the rest. */
    method HandleBatch(batch: seq<int>, throwsAt: Option<nat>)
      modifies this
      ensures var n := if throwsAt.Some? && throwsAt.value < |batch| then throwsAt.value + 1 else |batch|;
        && handled == old(handled) + batch[..n]
        && offset == if n == 0 then old(offset) else Some(batch[n - 1] + 1)
    {
      var i := 0;
      while i < |batch|
        invariant i <= |batch|
        invariant throwsAt.Some? && throwsAt.value < |batch| ==> i <= throwsAt.value
        invariant handled == old(handled) + batch[..i]
        invariant offset == if i == 0 then old(offset) else Some(batch[i - 1] + 1)
      {
        offset := Some(batch[i] + 1);
        handled := handled + [batch[i]];
        i := i + 1;
        if throwsAt == Some(i - 1) {
          return;
        }
      }
    }

    /** One turn: fetch from the offset on and handle what came. */
    method TakeTurn(updates: seq<int>, turn: Turn)
      requires Ascending(updates) && Valid(updates)
      modifies this
      ensures Valid(updates) && |handled| == |old(handled)| + Handled(|updates| - |old(handled)|, turn)
    {
      match turn {
        case FetchThrows =>
        case Fetched(size, throwsAt) =>
          var batch := GetUpdates(updates, offset, size);
          BatchFollows(updates, handled, size,
                       if throwsAt.Some? && throwsAt.value < |batch| then throwsAt.value + 1 else |batch|);
          hide GetUpdates, Ascending;
          HandleBatch(batch, throwsAt);
      }
    }

    /**
     * Whatever throws, the handler is invoked on the updates in order, each
     * exactly once and none skipped.
     */
    method Loop(updates: seq<int>, turns: seq<Turn>)
      requires Ascending(updates) && offset == None && handled == []
      modifies this
      ensures handled == updates[..Reached(|updates|, 0, turns)]
      ensures forall i, j :: 0 <= i < j < |handled| ==> handled[i] != handled[j]
      ensures Valid(updates)
    {
      var turn := 0;
      while turn < |turns|
        invariant turn <= |turns|
        invariant Valid(updates)
        invariant Reached(|updates|, 0, turns) == Reached(|updates|, |handled|, turns[turn..])
      {
        assert turns[turn..][1..] == turns[turn + 1..];
        TakeTurn(updates, turns[turn]);
        turn := turn + 1;
      }
      assert turns[turn..] == [];
    }
  }

  /** What the offset is behind these updates. */
  function OffsetBehind(handled: seq<int>): Option<int> {
    if handled == [] then None else Some(handled[|handled| - 1] + 1)
  }

  /** Any beginning of the server's answer continues what was handled. */
  lemma BatchFollows(updates: seq<int>, handled: seq<int>, size: nat, n: nat)
    requires Ascending(updates) && handled <= updates
    requires n <= |GetUpdates(updates, OffsetBehind(handled), size)|
    ensures var batch := GetUpdates(updates, OffsetBehind(handled), size);
      && |batch| == (if size <= |updates| - |handled| then size else |updates| - |handled|)
      && handled + batch[..n] <= updates
      && OffsetBehind(handled + batch[..n]) == if n == 0 then OffsetBehind(handled) else Some(batch[n - 1] + 1)
  {
    var k := |handled|;
    AcknowledgedIsHandled(updates, k, OffsetBehind(handled));
    hide Acknowledged, Ascending;
    var batch := GetUpdates(updates, OffsetBehind(handled), size);
    hide GetUpdates;
    SliceFollows(updates, handled, batch, n);
  }

  lemma SliceFollows(s: seq<int>, before: seq<int>, batch: seq<int>, n: nat)
    requires before <= s && |before| + |batch| <= |s| && batch == s[|before|..|before| + |batch|] && n <= |batch|
    ensures before + batch[..n] <= s
    ensures OffsetBehind(before + batch[..n]) == if n == 0 then OffsetBehind(before) else Some(batch[n - 1] + 1)
  {
    assert before + batch[..n] == s[..|before| + n];
    assert n == 0 ==> before + batch[..n] == before;
  }

  /** The server resumes exactly behind the last update handed over. */
  lemma {:induction false} AcknowledgedIsHandled(updates: seq<int>, n: nat, offset: Option<int>)
    requires Ascending(updates) && n <= |updates|
    requires offset == if n == 0 then None else Some(updates[n - 1] + 1)
    ensures Acknowledged(updates, offset) == n
  {
    var k := Acknowledged(updates, offset);
    assert 0 < n < |updates| ==> updates[n - 1] < updates[n];
    assert forall i :: 0 <= i < n ==> updates[i] <= updates[n - 1];
  }

  /** One turn that fetches anything moves the handler on, so it gets through every update in the end. */
  lemma {:induction false} EveryUpdateIsReached(total: nat, from: nat, turns: seq<Turn>)
    requires from <= total
    requires forall i :: 0 <= i < |turns| ==> turns[i].Fetched? && turns[i].size > 0
    ensures Reached(total, from, turns) >= (if from + |turns| <= total then from + |turns| else total)
    decreases |turns|
  {
    if turns != [] {
      EveryUpdateIsReached(total, from + Handled(total - from, turns[0]), turns[1..]);
    }
  }
}
