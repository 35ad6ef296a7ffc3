/**
 * The one thing the coordinator makes atomic: `pending_requests.lock().remove(request_id)`. Handlers
 * otherwise interleave freely, one database call at a time; what each call does to the store is
 * left open, so the results hold for whatever the handlers do after the gate.
 */
module Gate {
  import opened Basics

  /** Handlers are numbered by invocation. Drop is the removal after a failed emission; Write is a
      database call that is not behind the gate, such as the log entry that the socket handler makes of
      every response before it asks the coordinator. */
  datatype Event =
    | Insert(request: nat)
    | Drop(request: nat)
    | Enter(handler: nat, request: nat)
    | Act(handler: nat)
    | Write(call: nat)
    | Restart

  /** The shared state: the store, the pending requests, and how far each admitted handler has got. */
  datatype World<S> = World(store: S, pending: set<nat>, inside: map<nat, nat>)

  datatype Calls<!S(!new)> = Calls(act: (nat, nat, S) -> S, write: (nat, S) -> S)

  predicate Admits<S>(w: World<S>, e: Event) {
    e.Enter? && e.request in w.pending
  }

  function Step<S(!new)>(c: Calls<S>, w: World<S>, e: Event): World<S> {
    match e
    case Insert(q) => w.(pending := w.pending + {q})
    case Drop(q) => w.(pending := w.pending - {q})
    case Enter(h, q) => if Admits(w, e) then w.(pending := w.pending - {q}, inside := w.inside[h := 0]) else w
    case Act(h) =>
      if h in w.inside then w.(store := c.act(h, w.inside[h], w.store), inside := w.inside[h := w.inside[h] + 1]) else w
    case Write(call) => w.(store := c.write(call, w.store))
    case Restart => w.(pending := {}, inside := map[])
  }

  function Run<S(!new)>(c: Calls<S>, w: World<S>, t: seq<Event>): World<S> {
    if t == [] then w else Step(c, Run(c, w, Front(t)), Last(t))
  }

  /** The i-th event of the trace passes the gate. */
  predicate Passes<S(!new)>(c: Calls<S>, w: World<S>, t: seq<Event>, i: nat)
    requires i < |t|
  {
    Admits(Run(c, w, t[..i]), t[i])
  }

  // ── Exactly once ───────────────────────────────────────────────────────────────────────────

  /** The request id is fresh: at most one event of the trace inserts it. */
  ghost predicate FreshOnce<S>(w: World<S>, t: seq<Event>, q: nat) {
    q !in w.pending && forall k, l :: 0 <= k < |t| && 0 <= l < |t| && t[k] == t[l] == Insert(q) ==> k == l
  }

  /** Between two admissions of a request, or while it stays pending after one, it was inserted
      again. */
  lemma {:induction false} ReinsertedBetween<S(!new)>(c: Calls<S>, w: World<S>, t: seq<Event>, i: nat, n: nat)
    requires i < n <= |t| && Passes(c, w, t, i) && t[i].request in Run(c, w, t[..n]).pending
    ensures exists k :: i < k < n && t[k] == Insert(t[i].request)
  {
    assert Front(t[..n]) == t[..n - 1];
    if n - 1 != i && t[n - 1] != Insert(t[i].request) {
      ReinsertedBetween(c, w, t, i, n - 1);
    }
  }

  /** Whatever the interleaving, a request with a fresh id passes the gate at most once. */
  lemma AtMostOnce<S(!new)>(c: Calls<S>, w: World<S>, t: seq<Event>, i: nat, j: nat)
    requires i < |t| && j < |t| && Passes(c, w, t, i) && Passes(c, w, t, j) && t[i].request == t[j].request
    requires FreshOnce(w, t, t[i].request)
    ensures i == j
  {
    InsertedBefore(c, w, t, t[i].request, i);
    InsertedBefore(c, w, t, t[i].request, j);
    if i < j { ReinsertedBetween(c, w, t, i, j); }
    if j < i { ReinsertedBetween(c, w, t, j, i); }
  }

  /** A pending request was pending from the start or was inserted. */
  lemma {:induction false} InsertedBefore<S(!new)>(c: Calls<S>, w: World<S>, t: seq<Event>, q: nat, n: nat)
    requires n <= |t| && q in Run(c, w, t[..n]).pending
    ensures q in w.pending || exists k :: 0 <= k < n && t[k] == Insert(q)
  {
    if n > 0 {
      assert Front(t[..n]) == t[..n - 1];
      if t[n - 1] != Insert(q) { InsertedBefore(c, w, t, q, n - 1); }
    }
  }

  /** After a restart no earlier request is admitted: an answer that passes answers a request made since. */
  lemma RestartForgets<S(!new)>(c: Calls<S>, w: World<S>, t: seq<Event>, r: nat, i: nat)
    requires r < i < |t| && t[r] == Restart && Passes(c, w, t, i)
    ensures exists k :: r < k < i && t[k] == Insert(t[i].request)
  {
    PendingSince(c, w, t, r, i, t[i].request);
  }

  lemma {:induction false} PendingSince<S(!new)>(c: Calls<S>, w: World<S>, t: seq<Event>, r: nat, n: nat, q: nat)
    requires r < n <= |t| && (t[r] == Restart || t[r] == Drop(q)) && q in Run(c, w, t[..n]).pending
    ensures exists k :: r < k < n && t[k] == Insert(q)
  {
    assert Front(t[..n]) == t[..n - 1];
    if n - 1 != r && t[n - 1] != Insert(q) { PendingSince(c, w, t, r, n - 1, q); }
  }

  /** A request that was withdrawn after a failed emission is not admitted either. */
  lemma DropForgets<S(!new)>(c: Calls<S>, w: World<S>, t: seq<Event>, r: nat, i: nat)
    requires r < i < |t| && t[r].Drop? && Passes(c, w, t, i) && t[i].request == t[r].request
    ensures exists k :: r < k < i && t[k] == Insert(t[i].request)
  {
    PendingSince(c, w, t, r, i, t[i].request);
  }

  /** A handler takes a step only after it was admitted, and not across a restart. */
  lemma {:induction false} ActsOnceAdmitted<S(!new)>(c: Calls<S>, w: World<S>, t: seq<Event>, h: nat, n: nat)
    requires n <= |t| && w.inside == map[] && h in Run(c, w, t[..n]).inside
    ensures exists k :: 0 <= k < n && Passes(c, w, t, k) && t[k].handler == h
                        && forall l :: k < l < n ==> t[l] != Restart
  {
    if n > 0 {
      assert Front(t[..n]) == t[..n - 1];
      if Passes(c, w, t, n - 1) && t[n - 1].handler == h {
      } else {
        ActsOnceAdmitted(c, w, t, h, n - 1);
      }
    }
  }

  // ── Stale and duplicate responses change nothing ───────────────────────────────────────────

  /** The handlers that get past the gate somewhere in the trace. */
  function Admitted<S(!new)>(c: Calls<S>, w: World<S>, t: seq<Event>): set<nat> {
    if t == [] then {}
    else if Admits(Run(c, w, Front(t)), Last(t)) then Admitted(c, w, Front(t)) + {Last(t).handler}
    else Admitted(c, w, Front(t))
  }

  /** The trace without every step of a handler that is not kept. */
  function OnlyOf(t: seq<Event>, keep: set<nat>): seq<Event> {
    if t == [] then []
    else if (Last(t).Enter? || Last(t).Act?) && Last(t).handler !in keep then OnlyOf(Front(t), keep)
    else OnlyOf(Front(t), keep) + [Last(t)]
  }

  lemma {:induction false} InsideAdmitted<S(!new)>(c: Calls<S>, w: World<S>, t: seq<Event>)
    requires w.inside == map[]
    ensures Run(c, w, t).inside.Keys <= Admitted(c, w, t)
  {
    if t != [] { InsideAdmitted(c, w, Front(t)); }
  }

  lemma {:induction false} KeptSuffices<S(!new)>(c: Calls<S>, w: World<S>, t: seq<Event>, keep: set<nat>)
    requires w.inside == map[] && Admitted(c, w, t) <= keep
    ensures Run(c, w, OnlyOf(t, keep)) == Run(c, w, t)
  {
    if t != [] {
      var before, e := Run(c, w, Front(t)), Last(t);
      KeptSuffices(c, w, Front(t), keep);
      InsideAdmitted(c, w, Front(t));
      if (e.Enter? || e.Act?) && e.handler !in keep {
        assert !Admits(before, e) && (e.Act? ==> e.handler !in before.inside);
      } else {
        assert Front(OnlyOf(t, keep)) == OnlyOf(Front(t), keep);
      }
    }
  }

  /** Deleting every step that the coordinator takes for a stale or duplicate response, from any
      interleaving, leaves the store, the pending requests and the progress of the others unchanged. */
  lemma StaleIsInvisible<S(!new)>(c: Calls<S>, w: World<S>, t: seq<Event>)
    requires w.inside == map[]
    ensures Run(c, w, OnlyOf(t, Admitted(c, w, t))) == Run(c, w, t)
  {
    KeptSuffices(c, w, t, Admitted(c, w, t));
  }

  /** Of all the handlers that bring answers to one request at most one is kept. */
  lemma OneHandlerKept<S(!new)>(c: Calls<S>, w: World<S>, t: seq<Event>, g: nat, h: nat, q: nat)
    requires FreshOnce(w, t, q)
    requires forall k :: 0 <= k < |t| && t[k].Enter? && t[k].handler in {g, h} ==> t[k].request == q
    requires g in Admitted(c, w, t) && h in Admitted(c, w, t)
    ensures g == h
  {
    var i := WhereAdmitted(c, w, t, g);
    var j := WhereAdmitted(c, w, t, h);
    AtMostOnce(c, w, t, i, j);
  }

  lemma {:induction false} WhereAdmitted<S(!new)>(c: Calls<S>, w: World<S>, t: seq<Event>, h: nat) returns (i: nat)
    requires h in Admitted(c, w, t)
    ensures i < |t| && Passes(c, w, t, i) && t[i].handler == h
  {
    assert t[..|t| - 1] == Front(t);
    if Admits(Run(c, w, Front(t)), Last(t)) && Last(t).handler == h {
      i := |t| - 1;
    } else {
      i := WhereAdmitted(c, w, Front(t), h);
      assert Front(t)[..i] == t[..i];
    }
  }
}
