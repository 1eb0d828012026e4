/** How a reader cuts its one queue of pushes into steps: it drains until a push
    of a later step, and holds that one push for the step it belongs to. */
module HeldPush {
  import opened Delivery

  /** One payload of a step. */
  datatype Arrival = Arrival(step: nat, path: string, id: nat)

  /** A push held back, then the data queue. */
  function Waiting(held: Option<Arrival>, data: seq<Arrival>): seq<Arrival> {
    if held.Some? then [held.value] + data else data
  }

  /** What is left of ps once the pushes up to the first later one are gone. */
  function Later(ps: seq<Arrival>, step: nat): seq<Arrival> {
    if ps == [] || ps[0].step > step then ps else Later(ps[1..], step)
  }

  /** The pushes of the step met before the first later one. */
  function Taken(ps: seq<Arrival>, step: nat): seq<Arrival> {
    if ps == [] || ps[0].step > step then []
    else (if ps[0].step == step then [ps[0]] else []) + Taken(ps[1..], step)
  }

  /** The pushes of earlier steps met on the way, which nothing reads any more. */
  function Stale(ps: seq<Arrival>, step: nat): seq<Arrival> {
    if ps == [] || ps[0].step > step then []
    else (if ps[0].step < step then [ps[0]] else []) + Stale(ps[1..], step)
  }

  function OfStep(ps: seq<Arrival>, step: nat): seq<Arrival> {
    if ps == [] then []
    else (if ps[0].step == step then [ps[0]] else []) + OfStep(ps[1..], step)
  }

  function NotOfStep(ps: seq<Arrival>, step: nat): seq<Arrival> {
    if ps == [] then []
    else (if ps[0].step == step then [] else [ps[0]]) + NotOfStep(ps[1..], step)
  }

  /** How many pushes of the step stand at the front. */
  function Lead(ps: seq<Arrival>, step: nat): (n: nat)
    ensures n <= |ps|
  {
    if ps == [] || ps[0].step != step then 0 else 1 + Lead(ps[1..], step)
  }

  /** The step's pushes stand together at the front, and what follows them, if
      anything, begins with a later push. */
  ghost predicate InStepOrder(ps: seq<Arrival>, step: nat) {
    var n := Lead(ps, step);
    && (n < |ps| ==> ps[n].step > step)
    && forall i | n <= i < |ps| :: ps[i].step != step
  }

  /** The reader's file, as far as cutting steps goes. */
  class File {
    var pending: seq<nat>
    var data: seq<Arrival>
    var held: Option<Arrival>

    /** The next announced step with its pushes, or nothing. */
    method NextStep() returns (ready: Option<nat>, pushes: seq<Arrival>)
      modifies this
      ensures ready.None? <==> old(pending) == []
      ensures ready.None? ==> pushes == [] && unchanged(this)
      ensures ready.Some? ==> [ready.value] + pending == old(pending)
      ensures ready.Some? ==> pushes == Taken(Waiting(old(held), old(data)), ready.value)
      ensures ready.Some? ==> Waiting(held, data) == Later(Waiting(old(held), old(data)), ready.value)
      ensures ready.Some? && held == None ==> data == []
    {
      hide Taken, Later;
      ready, pushes := None, [];
      if pending == [] {
        return;
      }
      var step := pending[0];
      ready, pending := Some(step), pending[1..];
      var drain := true;
      Unfold(Waiting(held, data), step);
      if held.Some? {
        assert Waiting(held, data)[1..] == data;
        if held.value.step == step {
          pushes := pushes + [held.value];
          held := None;
        } else if held.value.step > step {
          drain := false;
        } else {
          held := None;
        }
      }
      if drain {
        pushes := Drain(step, pushes);
      }
    }

    /** next_step()'s loop: pop until the queue is empty or a later push is held. */
    method Drain(step: nat, got: seq<Arrival>) returns (pushes: seq<Arrival>)
      requires held == None
      modifies this`data, this`held
      ensures pushes == got + Taken(old(data), step)
      ensures Waiting(held, data) == Later(old(data), step)
      ensures held == None ==> data == []
    {
      hide Taken, Later;
      pushes := got;
      while data != []
        invariant held == None
        invariant pushes + Taken(data, step) == got + Taken(old(data), step)
        invariant Later(data, step) == Later(old(data), step)
        decreases |data|
      {
        Unfold(data, step);
        var push := data[0];
        data := data[1..];
        if push.step == step {
          pushes := pushes + [push];
        } else if push.step > step {
          held := Some(push);
          return;
        }
      }
      Unfold(data, step);
    }
  }

  lemma Unfold(ps: seq<Arrival>, step: nat)
    ensures ps == [] ==> Taken(ps, step) == [] && Later(ps, step) == [] && Stale(ps, step) == []
    ensures ps != [] && ps[0].step > step ==> Taken(ps, step) == [] && Later(ps, step) == ps
    ensures ps != [] && ps[0].step == step ==> Taken(ps, step) == [ps[0]] + Taken(ps[1..], step)
    ensures ps != [] && ps[0].step < step ==> Taken(ps, step) == Taken(ps[1..], step)
    ensures ps != [] && ps[0].step <= step ==> Later(ps, step) == Later(ps[1..], step)
  {
  }

  lemma {:induction false} OfStepNone(ps: seq<Arrival>, step: nat)
    ensures OfStep(ps, step) == [] <==> forall i | 0 <= i < |ps| :: ps[i].step != step
    ensures OfStep(ps, step) == [] ==> NotOfStep(ps, step) == ps
  {
    if ps != [] {
      OfStepNone(ps[1..], step);
      if ps[0].step != step {
        assert forall i | 1 <= i < |ps| :: ps[i] == ps[1..][i - 1];
      }
    }
  }

  lemma {:induction false} Sizes(ps: seq<Arrival>, step: nat)
    ensures |OfStep(ps, step)| + |NotOfStep(ps, step)| == |ps|
    ensures |Taken(ps, step)| + |Later(ps, step)| <= |ps|
  {
    if ps != [] {
      Sizes(ps[1..], step);
    }
  }

  /** Holding one push is enough exactly for a queue in step order: then, and
      only then, a step is given all of its pushes and every other push waits. */
  lemma {:induction false} TakenIsExact(ps: seq<Arrival>, step: nat)
    ensures Taken(ps, step) == OfStep(ps, step) && Later(ps, step) == NotOfStep(ps, step)
       <==> InStepOrder(ps, step)
  {
    if ps == [] {
    } else if ps[0].step > step {
      OfStepNone(ps, step);
    } else if ps[0].step == step {
      TakenIsExact(ps[1..], step);
      assert Taken(ps, step)[1..] == Taken(ps[1..], step) && OfStep(ps, step)[1..] == OfStep(ps[1..], step);
      var n := Lead(ps[1..], step);
      assert forall i | n + 1 <= i < |ps| :: ps[i] == ps[1..][i - 1];
      assert forall i | n <= i < |ps| - 1 :: ps[1..][i] == ps[i + 1];
    } else {
      Sizes(ps[1..], step);
    }
  }

  /** Reading a step hands each push out, drops it, or leaves it waiting. */
  lemma {:induction false} ReadingSplits(ps: seq<Arrival>, step: nat)
    ensures multiset(ps) == multiset(Taken(ps, step)) + multiset(Stale(ps, step)) + multiset(Later(ps, step))
    ensures forall p | p in Taken(ps, step) :: p.step == step && p in ps
    ensures forall p | p in Stale(ps, step) :: p.step < step && p in ps
    ensures forall p | p in Later(ps, step) :: p in ps
  {
    if ps != [] && ps[0].step <= step {
      ReadingSplits(ps[1..], step);
      assert ps == [ps[0]] + ps[1..];
    }
  }

  /** A later push that arrives while a step is being drained is left waiting,
      wherever the drain then was: the drain may be taken as one step. */
  lemma {:induction false} LateArrival(ps: seq<Arrival>, x: Arrival, step: nat)
    requires x.step > step
    ensures Taken(ps + [x], step) == Taken(ps, step)
    ensures Later(ps + [x], step) == Later(ps, step) + [x]
  {
    if ps == [] {
      assert [] + [x] == [x];
    } else if ps[0].step <= step {
      assert (ps + [x])[1..] == ps[1..] + [x];
      LateArrival(ps[1..], x, step);
    }
  }
}
