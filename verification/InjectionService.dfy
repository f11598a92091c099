/** The store calls around a selection, and the limiter of mid-turn fetches.

    The loops compute what the state machine of `InjectionHooks` takes as its steps.
 */
module InjectionService {
  import opened Injection
  import opened InjectionHooks
  import opened Utf8
  import opened Collections

  class DeliveryStore {
    var delivered: set<Key>

    constructor (recorded: set<Key>)
      ensures delivered == recorded
    {
      delivered := recorded;
    }

    /** The identities not yet delivered to the session, in the order asked; an invalid one fails
        the whole read.
     */
    method UndeliveredInjectionItems(session: string, items: seq<Item>) returns (r: Option<seq<Key>>)
      ensures r.Some? <==> session != "" && forall item :: item in items ==> item.id != "" && item.revision >= 1
      ensures r.Some? ==> forall key :: key in r.value <==> key in Keys(session, items) - delivered
      ensures r.Some? ==> forall key :: key in r.value <==>
        key !in delivered && exists item :: item in items && key == Key(session, item.id, item.revision)
    {
      if session == "" {
        return None;
      }
      var pending: seq<Key> := [];
      for i := 0 to |items|
        invariant ValidItems(items[..i])
        invariant forall key :: key in pending <==> key in Keys(session, items[..i]) - delivered
      {
        var item := items[i];
        Snoc(items, i);
        if item.id == "" || item.revision < 1 {
          assert item in items;
          return None;
        }
        KeysSnoc(session, items, i);
        if KeyOf(session, item) !in delivered {
          pending := pending + [KeyOf(session, item)];
        }
      }
      assert items[..|items|] == items;
      return Some(pending);
    }

    /** One transaction of INSERT OR IGNORE: claims exactly what nobody claimed before, once each,
        or changes nothing at all.
     */
    method ClaimInjectionDeliveries(session: string, items: seq<Item>, storeOk: bool) returns (r: Option<seq<Key>>)
      modifies this
      ensures r.Some? <==> ClaimCommits(session, items, storeOk)
      ensures delivered == Claimed(session, items, old(delivered), storeOk)
      ensures r.Some? ==> forall key :: key in r.value <==> key in Keys(session, items) - old(delivered)
      ensures r.Some? ==> forall i, j :: 0 <= i < j < |r.value| ==> r.value[i] != r.value[j]
      ensures r.Some? <==> storeOk && session != "" && forall item :: item in items ==>
                                                                        item.id != "" && item.revision >= 1
      ensures r.None? ==> delivered == old(delivered)
      ensures r.Some? ==> forall key :: key in delivered <==>
        key in old(delivered) || exists item :: item in items && key == Key(session, item.id, item.revision)
    {
      KeysAre(session, items);
      hide Keys;
      if session == "" {
        return None;
      }
      KeysNone(session);
      assert items[..0] == [];
      var inserted := delivered;
      var claimed: seq<Key> := [];
      for i := 0 to |items|
        invariant delivered == old(delivered)
        invariant ValidItems(items[..i])
        invariant inserted == delivered + Keys(session, items[..i])
        invariant forall key :: key in claimed <==> key in Keys(session, items[..i]) - delivered
        invariant forall a, b :: 0 <= a < b < |claimed| ==> claimed[a] != claimed[b]
      {
        var item := items[i];
        Snoc(items, i);
        if item.id == "" || item.revision < 1 {
          assert item in items;
          return None;
        }
        KeysSnoc(session, items, i);
        var key := KeyOf(session, item);
        ghost var had := claimed;
        if key !in inserted {
          assert key !in claimed;
          inserted := inserted + {key};
          claimed := claimed + [key];
          assert forall other :: other in claimed <==> other in had || other == key;
        }
      }
      assert items[..|items|] == items;
      if !storeOk {
        return None;
      }
      delivered := inserted;
      return Some(claimed);
    }
  }

  lemma KeysAre(session: string, items: seq<Item>)
    ensures forall key :: key in Keys(session, items)
                          <==> exists item :: item in items && key == Key(session, item.id, item.revision)
  {
  }

  lemma Snoc(items: seq<Item>, i: nat)
    requires i < |items|
    ensures items[..i + 1] == items[..i] + [items[i]]
  {
  }

  lemma KeysNone(session: string)
    ensures Keys(session, []) == {}
  {
  }

  lemma KeysSnoc(session: string, items: seq<Item>, i: nat)
    requires i < |items|
    ensures Keys(session, items[..i + 1]) == Keys(session, items[..i]) + {KeyOf(session, items[i])}
  {
    Snoc(items, i);
  }

  lemma PendingAs(session: string, midTurn: bool, brief: seq<Item>, delivered: set<Key>, keep: Item -> bool)
    requires ValidItems(brief)
    requires forall item :: item in brief ==>
      keep(item) == (KeyOf(session, item) !in delivered && (midTurn ==> item.action == REQUIRED))
    ensures Pending(session, midTurn, brief, delivered) == Filter(brief, keep)
  {
    FilterCongruent(brief, keep,
      (item: Item) => KeyOf(session, item) !in delivered && (midTurn ==> item.action == REQUIRED));
  }

  lemma PayloadAs(session: string, selected: seq<Item>, delivered: set<Key>, keep: Item -> bool)
    requires ClaimCommits(session, selected, true)
    requires forall item :: item in selected ==> keep(item) == (KeyOf(session, item) !in delivered)
    ensures Payload(session, selected, delivered, true) == Filter(selected, keep)
  {
    FilterCongruent(selected, keep, (item: Item) => KeyOf(session, item) !in delivered);
  }

  lemma PendingMeans(session: string, midTurn: bool, brief: seq<Item>, delivered: set<Key>)
    ensures !ValidItems(brief) ==> Pending(session, midTurn, brief, delivered) == []
    ensures forall item :: item in Pending(session, midTurn, brief, delivered) <==>
      && (forall other :: other in brief ==> other.id != "" && other.revision >= 1)
      && item in brief && Key(session, item.id, item.revision) !in delivered
      && (midTurn ==> item.action == "coordination_required")
  {
    PendingIs(session, midTurn, brief, delivered);
  }

  /** The read stage of a hook: what it keeps of the brief, in the brief's order. */
  method PendingItems(store: DeliveryStore, session: string, midTurn: bool, brief: seq<Item>)
    returns (pending: seq<Item>)
    requires session != ""
    ensures pending == Pending(session, midTurn, brief, store.delivered)
    ensures forall item :: item in pending <==>
      && (forall other :: other in brief ==> other.id != "" && other.revision >= 1)
      && item in brief && Key(session, item.id, item.revision) !in store.delivered
      && (midTurn ==> item.action == "coordination_required")
  {
    PendingMeans(session, midTurn, brief, store.delivered);
    hide Filter, Keys, Pending;
    var r := store.UndeliveredInjectionItems(session, brief);
    pending := [];
    if r.None? {
      return;
    }
    var undelivered := set key | key in r.value;
    ghost var keep := (item: Item) => KeyOf(session, item) in undelivered && (midTurn ==> item.action == REQUIRED);
    FilterNone(keep);
    assert brief[..0] == [];
    for i := 0 to |brief|
      invariant pending == Filter(brief[..i], keep)
    {
      var item := brief[i];
      FilterSnoc(brief, i, keep);
      if KeyOf(session, item) !in undelivered {
        continue;
      }
      if midTurn && item.action != REQUIRED {
        continue;
      }
      pending := pending + [item];
    }
    assert brief[..|brief|] == brief;
    KeysHold(session, brief);
    PendingAs(session, midTurn, brief, store.delivered, keep);
  }

  lemma KeysHold(session: string, items: seq<Item>)
    ensures forall item :: item in items ==> KeyOf(session, item) in Keys(session, items)
  {
  }

  /** The claim stage: the selected items this hook was the first to claim, and their text. */
  method Deliver(store: DeliveryStore, session: string, selected: seq<Item>, storeOk: bool)
    returns (payload: seq<Item>, text: string)
    requires session != ""
    modifies store
    ensures payload == Payload(session, selected, old(store.delivered), storeOk)
    ensures store.delivered == Claimed(session, selected, old(store.delivered), storeOk)
    ensures text == Render(payload)
    ensures forall item :: item in payload <==>
      && storeOk && (forall other :: other in selected ==> other.id != "" && other.revision >= 1)
      && item in selected && Key(session, item.id, item.revision) !in old(store.delivered)
  {
    PayloadIs(session, selected, store.delivered, storeOk);
    hide Filter, Keys, Render;
    ghost var before := store.delivered;
    var r := store.ClaimInjectionDeliveries(session, selected, storeOk);
    payload, text := [], "";
    if r.Some? {
      var claimed := set key | key in r.value;
      ghost var keep := (item: Item) => KeyOf(session, item) in claimed;
      FilterNone(keep);
      assert selected[..0] == [];
      for i := 0 to |selected|
        invariant payload == Filter(selected[..i], keep)
        invariant store.delivered == Claimed(session, selected, before, storeOk)
      {
        FilterSnoc(selected, i, keep);
        if KeyOf(session, selected[i]) in claimed {
          payload := payload + [selected[i]];
        }
      }
      assert selected[..|selected|] == selected;
      KeysHold(session, selected);
      PayloadAs(session, selected, before, keep);
    }
    text := RenderInjection(payload);
  }

  // ---------------------------------------------------------------- Mid-turn fetches

  /** Milliseconds between two mid-turn fetches of one workstream. */
  const FETCH_WINDOW := 20_000

  type Fetches = map<string, int>

  predicate Grants(last: Fetches, workstream: string, now: int) {
    workstream in last ==> now - last[workstream] >= FETCH_WINDOW
  }

  function Granted(last: Fetches, workstream: string, now: int): Fetches {
    if Grants(last, workstream, now) then last[workstream := now] else last
  }

  class FetchLimiter {
    var midTurnFetch: Fetches

    constructor ()
      ensures midTurnFetch == map[]
    {
      midTurnFetch := map[];
    }

    method ClaimMidTurnFetch(workstream: string, now: int) returns (ok: bool)
      modifies this
      ensures ok == Grants(old(midTurnFetch), workstream, now)
      ensures midTurnFetch == Granted(old(midTurnFetch), workstream, now)
    {
      if workstream in midTurnFetch && now - midTurnFetch[workstream] < FETCH_WINDOW {
        return false;
      }
      midTurnFetch := midTurnFetch[workstream := now];
      return true;
    }
  }

  datatype Ask = Ask(workstream: string, now: int)

  /** The times at which one workstream is granted a fetch over a run of requests. */
  function GrantTimes(last: Fetches, asks: seq<Ask>, workstream: string): seq<int>
    decreases |asks|
  {
    if asks == [] then []
    else
      (if asks[0].workstream == workstream && Grants(last, workstream, asks[0].now) then [asks[0].now] else [])
      + GrantTimes(Granted(last, asks[0].workstream, asks[0].now), asks[1..], workstream)
  }

  /** Any two grants of a workstream are a full window apart for each grant between them,
      whatever the clock does.
   */
  lemma {:induction false} GrantsAreApart(last: Fetches, asks: seq<Ask>, workstream: string, j: nat)
    requires j < |GrantTimes(last, asks, workstream)|
    ensures var t := GrantTimes(last, asks, workstream);
            && (workstream in last ==> t[j] >= last[workstream] + (j + 1) * FETCH_WINDOW)
            && t[j] >= t[0] + j * FETCH_WINDOW
    decreases |asks|
  {
    var t := GrantTimes(last, asks, workstream);
    var later := Granted(last, asks[0].workstream, asks[0].now);
    var rest := GrantTimes(later, asks[1..], workstream);
    if asks[0].workstream == workstream && Grants(last, workstream, asks[0].now) {
      assert t == [asks[0].now] + rest;
      if j > 0 {
        GrantsAreApart(later, asks[1..], workstream, j - 1);
        assert t[j] == rest[j - 1];
      }
    } else {
      assert t == rest;
      GrantsAreApart(later, asks[1..], workstream, j);
    }
  }

  /** Which of a run of requests are granted. */
  function Decisions(last: Fetches, asks: seq<Ask>): (granted: seq<bool>)
    ensures |granted| == |asks|
    decreases |asks|
  {
    if asks == [] then []
    else [Grants(last, asks[0].workstream, asks[0].now)]
         + Decisions(Granted(last, asks[0].workstream, asks[0].now), asks[1..])
  }

  /** From a fresh start, a request is granted exactly when every earlier grant to the workstream is
      at least 20 seconds back. A clock set back only delays the next grant.
   */
  lemma GrantedExactlyWhen(asks: seq<Ask>, j: nat)
    requires j < |asks|
    ensures var granted := Decisions(map[], asks);
            granted[j] <==> forall i :: 0 <= i < j && granted[i] && asks[i].workstream == asks[j].workstream
                                        ==> asks[j].now - asks[i].now >= 20_000
  {
    GrantedAfter(map[], asks, j);
  }

  lemma {:induction false} GrantedAfter(last: Fetches, asks: seq<Ask>, j: nat)
    requires j < |asks|
    ensures var granted := Decisions(last, asks);
            var w := asks[j].workstream;
            granted[j] <==> (w in last ==> asks[j].now - last[w] >= 20_000)
                            && forall i :: 0 <= i < j && granted[i] && asks[i].workstream == w
                                           ==> asks[j].now - asks[i].now >= 20_000
    decreases |asks|
  {
    if j > 0 {
      var later := Granted(last, asks[0].workstream, asks[0].now);
      GrantedAfter(later, asks[1..], j - 1);
      var granted, rest := Decisions(last, asks), Decisions(later, asks[1..]);
      assert granted == [Grants(last, asks[0].workstream, asks[0].now)] + rest;
      assert forall i :: 0 < i <= j ==> granted[i] == rest[i - 1] && asks[i] == asks[1..][i - 1];
      assert forall i :: 0 <= i < j ==> rest[i] == granted[i + 1] && asks[1..][i] == asks[i + 1];
    }
  }
}
