/**
 The queue of native surface updates: a chain of promises in which each link waits for
 the one before it and then skips its native call unless it is still the latest request.

 Promises are modelled by the events that can happen to the chain: a request is made, the
 next link gets its turn, the native call in flight settles.
 */
module SurfaceQueue {
  import opened Outcomes

  /** How a request was answered.  A failed native call may or may not have changed the surface. */
  datatype Answer = Skipped(latest: nat) | Applied | Rejected(changed: bool)

  /**
   Request `n` is `requests[n - 1]`, so the latest generation is `|requests|`; the links
   `1..|answers|` have settled; `issued` lists the generations of the native calls begun.
   */
  datatype Chain<S> = Chain(requests: seq<S>, answers: seq<Answer>, running: bool, issued: seq<nat>, surface: Option<S>)

  datatype Event<S> = Request(state: S) | Turn | Settle(ok: bool, changed: bool)

  predicate TurnEnabled<S>(c: Chain<S>) {
    !c.running && |c.answers| < |c.requests|
  }

  function Step<S>(c: Chain<S>, e: Event<S>): Chain<S>
    requires c.running ==> |c.answers| < |c.requests|
  {
    match e
    case Request(state) => c.(requests := c.requests + [state])
    case Turn =>
      var n := |c.answers| + 1;
      if !TurnEnabled(c) then c
      else if n != |c.requests| then c.(answers := c.answers + [Skipped(|c.requests|)])
      else c.(running := true, issued := c.issued + [n])
    case Settle(ok, changed) =>
      if !c.running then c
      else c.(running := false,
              answers := c.answers + [if ok then Applied else Rejected(changed)],
              surface := if ok || changed then Some(c.requests[|c.answers|]) else c.surface)
  }

  class Queue<S> {
    var requests: seq<S>
    var answers: seq<Answer>
    var running: bool
    var issued: seq<nat>
    var surface: Option<S>

    ghost predicate Valid()
      reads this
    {
      IsSound(State())
    }

    function State(): Chain<S>
      reads this
    {
      Chain(requests, answers, running, issued, surface)
    }

    constructor ()
      ensures Valid() && State() == Chain([], [], false, [], None)
    {
      requests, answers, running, issued, surface := [], [], false, [], None;
    }

    method SetSurfaceState(state: S)
      requires Valid()
      modifies this
      ensures Valid() && State() == Step(old(State()), Request(state))
    {
      StepIsSound(State(), Request(state));
      requests := requests + [state];
    }

    method RunLink()
      requires Valid() && TurnEnabled(State())
      modifies this
      ensures Valid() && State() == Step(old(State()), Turn)
    {
      StepIsSound(State(), Turn);
      var updateGeneration := |answers| + 1;
      if updateGeneration != |requests| {
        answers := answers + [Skipped(|requests|)];
        return;
      }
      running := true;
      issued := issued + [updateGeneration];
    }

    method NativeCallSettled(ok: bool, changed: bool)
      requires Valid() && running
      modifies this
      ensures Valid() && State() == Step(old(State()), Settle(ok, changed))
    {
      StepIsSound(State(), Settle(ok, changed));
      if ok || changed {
        surface := Some(requests[|answers|]);
      }
      answers := answers + [if ok then Applied else Rejected(changed)];
      running := false;
    }
  }

  // ---------------------------------------------------------------------------
  // Every interleaving
  // ---------------------------------------------------------------------------

  predicate TookEffect(answer: Answer) {
    answer == Applied || answer == Rejected(true)
  }

  /** The generation of the last call that changed the surface, or 0. */
  function LastEffect(answers: seq<Answer>): (n: nat)
    ensures n <= |answers|
    ensures n > 0 ==> TookEffect(answers[n - 1])
    ensures forall i :: n <= i < |answers| ==> !TookEffect(answers[i])
  {
    if answers == [] then 0
    else if TookEffect(answers[|answers| - 1]) then |answers|
    else LastEffect(answers[..|answers| - 1])
  }

  function Shown<S>(c: Chain<S>): Option<S>
    requires |c.answers| <= |c.requests|
  {
    var n := LastEffect(c.answers);
    if n == 0 then None else Some(c.requests[n - 1])
  }

  /**
   At most one call is in flight and it is the last one issued; calls are issued in
   strictly increasing order; exactly the requests that were not skipped have been
   issued; whatever was skipped had been superseded; once the latest link has settled it
   was not skipped; and the surface shows the request of the last call that took effect.
   */
  ghost predicate IsSound<S>(c: Chain<S>) {
    && |c.answers| <= |c.requests|
    && (c.running ==> |c.answers| < |c.requests| && c.issued != [] && c.issued[|c.issued| - 1] == |c.answers| + 1)
    && IssuedInOrder(c) && SkipsSuperseded(c)
    && c.surface == Shown(c)
  }

  ghost predicate IssuedInOrder<S>(c: Chain<S>) {
    && (forall i, j :: 0 <= i < j < |c.issued| ==> c.issued[i] < c.issued[j])
    && (forall n :: n in c.issued <==>
          (1 <= n <= |c.answers| && !c.answers[n - 1].Skipped?) || (c.running && n == |c.answers| + 1))
  }

  ghost predicate SkipsSuperseded<S>(c: Chain<S>) {
    forall i :: 0 <= i < |c.answers| && c.answers[i].Skipped? ==> i + 1 < c.answers[i].latest <= |c.requests|
  }

  lemma StepIsSound<S>(c: Chain<S>, e: Event<S>)
    requires IsSound(c)
    ensures IsSound(Step(c, e))
  {
    match e
    case Request(_) =>
    case Turn =>
      if TurnEnabled(c) && |c.answers| + 1 == |c.requests| {
        IssueKeepsOrder(c);
      } else if TurnEnabled(c) {
        AnswerIsSound(c, Skipped(|c.requests|), c.surface);
      }
    case Settle(ok, changed) =>
      if c.running {
        AnswerIsSound(c, if ok then Applied else Rejected(changed), Step(c, e).surface);
      }
  }

  /** A link settles: it was skipped, or its native call came back. */
  lemma AnswerIsSound<S>(c: Chain<S>, answer: Answer, surface: Option<S>)
    requires IsSound(c) && |c.answers| < |c.requests|
    requires if c.running then !answer.Skipped?
             else answer == Skipped(|c.requests|) && |c.answers| + 1 < |c.requests|
    requires surface == if TookEffect(answer) then Some(c.requests[|c.answers|]) else c.surface
    ensures IsSound(c.(running := false, answers := c.answers + [answer], surface := surface))
  {
    var next := c.(running := false, answers := c.answers + [answer], surface := surface);
    assert next.answers[..|next.answers| - 1] == c.answers;
    assert next.answers[|c.answers|] == answer;
    forall n ensures n in next.issued <==> 1 <= n <= |next.answers| && !next.answers[n - 1].Skipped? {
      if 1 <= n <= |c.answers| {
        assert next.answers[n - 1] == c.answers[n - 1];
      }
    }
  }

  lemma IssueKeepsOrder<S>(c: Chain<S>)
    requires IsSound(c) && !c.running
    ensures IssuedInOrder(c.(running := true, issued := c.issued + [|c.answers| + 1]))
  {
    var n, longer := |c.answers| + 1, c.issued + [|c.answers| + 1];
    forall i | 0 <= i < |c.issued| ensures longer[i] < n {
      assert c.issued[i] in c.issued;
    }
    forall m ensures m in longer <==> m in c.issued || m == n {
      assert longer[|c.issued|] == n;
    }
  }

  function Run<S>(events: seq<Event<S>>): (c: Chain<S>)
    ensures IsSound(c)
  {
    if events == [] then Chain([], [], false, [], None)
    else
      var c := Run(events[..|events| - 1]);
      StepIsSound(c, events[|events| - 1]);
      Step(c, events[|events| - 1])
  }

  /** When every request has been answered, the latest one was issued; if its call worked, it shows. */
  lemma LatestWins<S>(events: seq<Event<S>>)
    requires var c := Run(events); c.requests != [] && |c.answers| == |c.requests|
    ensures var c := Run(events);
            && c.issued != [] && c.issued[|c.issued| - 1] == |c.requests|
            && (c.answers[|c.answers| - 1] == Applied ==> c.surface == Some(c.requests[|c.requests| - 1]))
  {
    var c := Run(events);
    assert !c.answers[|c.answers| - 1].Skipped?;
    assert |c.requests| in c.issued;
  }

  // ---------------------------------------------------------------------------
  // Answers
  // ---------------------------------------------------------------------------

  /** How the native calls of a run came back, in order: whether they worked, and else whether they changed anything. */
  function Settled<S>(events: seq<Event<S>>): seq<Event<S>> {
    if events == [] then []
    else
      var before, e := events[..|events| - 1], events[|events| - 1];
      Settled(before) + if e.Settle? && Run(before).running then [e] else []
  }

  ghost predicate AnsweredAs(answer: Answer, ok: bool, changed: bool) {
    if ok then answer == Applied else answer == Rejected(changed)
  }

  /** The calls issued are those that came back and perhaps one in flight, and each request gets its call's answer. */
  ghost predicate AnswersFollow<S>(c: Chain<S>, outcomes: seq<Event<S>>) {
    && |c.issued| == |outcomes| + (if c.running then 1 else 0)
    && forall k :: 0 <= k < |outcomes| ==>
         && 1 <= c.issued[k] <= |c.answers| && outcomes[k].Settle?
         && AnsweredAs(c.answers[c.issued[k] - 1], outcomes[k].ok, outcomes[k].changed)
  }

  /** Every request whose native call was issued is answered as that call came back. */
  lemma {:induction false} AnswersAreOutcomes<S>(events: seq<Event<S>>)
    ensures AnswersFollow(Run(events), Settled(events))
  {
    if events != [] {
      var before, e := events[..|events| - 1], events[|events| - 1];
      AnswersAreOutcomes(before);
      AnswerStep(Run(before), e, Settled(before));
    }
  }

  lemma AnswerStep<S>(c: Chain<S>, e: Event<S>, outcomes: seq<Event<S>>)
    requires IsSound(c) && AnswersFollow(c, outcomes)
    ensures AnswersFollow(Step(c, e), outcomes + if e.Settle? && c.running then [e] else [])
  {
    var next := Step(c, e);
    assert forall i :: 0 <= i < |c.answers| ==> next.answers[i] == c.answers[i];
    assert forall k :: 0 <= k < |c.issued| ==> next.issued[k] == c.issued[k];
    assert outcomes + [] == outcomes;
  }

  // ---------------------------------------------------------------------------
  // Draining
  // ---------------------------------------------------------------------------

  /** Nothing new is requested and native calls succeed. */
  function Drain<S>(c: Chain<S>): (end: Chain<S>)
    requires IsSound(c)
    ensures IsSound(end)
    decreases |c.requests| - |c.answers|, !c.running
  {
    if |c.answers| == |c.requests| then c
    else
      var e := if c.running then Settle(true, true) else Turn;
      StepIsSound(c, e);
      Drain(Step(c, e))
  }

  /** When the latest request's call is in flight, its success is all that is missing. */
  lemma DrainLast<S>(c: Chain<S>)
    requires IsSound(c) && c.running && |c.answers| + 1 == |c.requests|
    ensures var end := Drain(c);
            && end == Step(c, Settle(true, true))
            && end.surface == Some(c.requests[|c.requests| - 1])
  {
    StepIsSound(c, Settle(true, true));
    var next := Step(c, Settle(true, true));
    assert Drain(c) == Drain(next) && Drain(next) == next;
  }

  /** However long the chain has grown, one more native call brings the surface up to date. */
  lemma {:induction false} DrainShowsLatest<S>(c: Chain<S>)
    requires IsSound(c) && |c.answers| < |c.requests|
    ensures var end := Drain(c);
            && end.requests == c.requests && |end.answers| == |end.requests|
            && end.surface == Some(c.requests[|c.requests| - 1])
            && |end.issued| <= |c.issued| + 1
    ensures c.running && |c.answers| + 1 == |c.requests| ==> Drain(c).issued == c.issued
    decreases |c.requests| - |c.answers|, !c.running
  {
    if c.running && |c.answers| + 1 == |c.requests| {
      DrainLast(c);
    } else {
      var e := if c.running then Settle(true, true) else Turn;
      StepIsSound(c, e);
      assert Drain(c) == Drain(Step(c, e)) && Step(c, e).requests == c.requests;
      DrainShowsLatest(Step(c, e));
    }
  }
}
