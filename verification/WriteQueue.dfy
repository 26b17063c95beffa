/** The queue in front of an asynchronous writer that takes one message at a time. The market data dispatcher
    and the client stream each keep one, under a mutex. */
module WriteQueues {

  /** The queue and its flag, with the history of the stream: the messages submitted, those handed to the
      writer, and the number of writes whose completion came back. */
  datatype Stream<T> = Stream(queue: seq<T>, inProgress: bool, submitted: seq<T>, written: seq<T>, done: nat)

  function Idle<T>(): Stream<T> {
    Stream([], false, [], [], 0)
  }

  datatype Step<T> = Submit(message: T) | Complete(success: bool)

  function Submitted<T>(s: Stream<T>, message: T): Stream<T> {
    Stream(s.queue + [message], true, s.submitted + [message],
           if s.inProgress then s.written else s.written + [message], s.done)
  }

  // The completed message leaves the queue; the next one is written only after a success.
  function Completed<T>(s: Stream<T>, success: bool): Stream<T>
    requires s.queue != []
  {
    var rest := s.queue[1..];
    if rest != [] && success then s.(queue := rest, written := s.written + [rest[0]], done := s.done + 1)
    else s.(queue := rest, inProgress := false, done := s.done + 1)
  }

  /** In every run, failures included: at most one write is outstanding, the flag says whether there is one,
      and its completion finds a message to take off the queue. */
  predicate Serial<T>(s: Stream<T>) {
    && |s.written| == s.done + (if s.inProgress then 1 else 0)
    && (s.inProgress ==> s.queue != [])
  }

  /** The flag is up exactly when something waits; the messages submitted are those completed followed by the
      queue; and the one being written is the first of the queue. */
  predicate InOrder<T(==)>(s: Stream<T>) {
    && Serial(s)
    && (s.inProgress <==> s.queue != [])
    && s.submitted == s.written[..s.done] + s.queue
    && (s.inProgress ==> s.written[s.done] == s.queue[0])
  }

  class WriteQueue<T> {
    var queue: seq<T>
    var writeInProgress: bool
    ghost var submitted: seq<T>
    ghost var written: seq<T>
    ghost var done: nat

    ghost function State(): Stream<T>
      reads this
    {
      Stream(queue, writeInProgress, submitted, written, done)
    }

    ghost predicate Valid()
      reads this
    {
      Serial(State())
    }

    constructor ()
      ensures Valid() && State() == Idle()
    {
      queue, writeInProgress := [], false;
      submitted, written, done := [], [], 0;
    }

    // The writer is handed a message and will call back once.
    ghost method HandToWriter(message: T)
      requires |written| == done
      modifies `written
      ensures written == old(written) + [message]
    {
      written := written + [message];
    }

    method Write(message: T)
      requires Valid()
      modifies this
      ensures Valid() && State() == Submitted(old(State()), message)
      ensures queue == old(queue) + [message] && submitted == old(submitted) + [message] && writeInProgress
      ensures written == if old(writeInProgress) then old(written) else old(written) + [message]
    {
      queue := queue + [message];
      submitted := submitted + [message];
      if !writeInProgress {
        HandToWriter(message);
        writeInProgress := true;
      }
    }

    // The callback of the outstanding write.
    method WriteCompleted(success: bool)
      requires Valid() && done < |written|
      modifies this
      ensures Valid() && old(queue) != [] && State() == Completed(old(State()), success)
      ensures queue == old(queue)[1..] && submitted == old(submitted) && done == old(done) + 1
      ensures writeInProgress <==> success && queue != []
      ensures written == if writeInProgress then old(written) + [queue[0]] else old(written)
    {
      done := done + 1;
      queue := queue[1..];
      if queue != [] && success {
        HandToWriter(queue[0]);
      } else {
        writeInProgress := false;
      }
    }
  }

  // ---- whole runs ----

  /** A completion comes only for an outstanding write. */
  predicate Possible<T>(s: Stream<T>, step: Step<T>) {
    step.Complete? ==> s.done < |s.written|
  }

  function Next<T>(s: Stream<T>, step: Step<T>): (r: Stream<T>)
    requires Serial(s) && Possible(s, step)
    ensures Serial(r)
  {
    match step
    case Submit(m) => Submitted(s, m)
    case Complete(success) => Completed(s, success)
  }

  predicate IsRun<T>(s: Stream<T>, steps: seq<Step<T>>)
    requires Serial(s)
    decreases |steps|
  {
    steps != [] ==> Possible(s, steps[0]) && IsRun(Next(s, steps[0]), steps[1..])
  }

  function Run<T>(s: Stream<T>, steps: seq<Step<T>>): (r: Stream<T>)
    requires Serial(s) && IsRun(s, steps)
    ensures Serial(r)
    decreases |steps|
  {
    if steps == [] then s else Run(Next(s, steps[0]), steps[1..])
  }

  /** A completion keeps the order exactly when it succeeded or nothing was waiting behind it. */
  lemma CompletionInOrderIff<T>(s: Stream<T>, success: bool)
    requires InOrder(s) && s.inProgress
    ensures InOrder(Completed(s, success)) <==> success || |s.queue| == 1
  {
    var r := Completed(s, success);
    assert s.queue == [s.queue[0]] + s.queue[1..];
    assert r.written[..r.done] == s.written[..s.done] + [s.queue[0]];
    assert s.written[..s.done] + s.queue == s.written[..s.done] + [s.queue[0]] + s.queue[1..];
  }

  lemma SubmitInOrder<T>(s: Stream<T>, message: T)
    requires InOrder(s)
    ensures InOrder(Submitted(s, message))
  {
    var r := Submitted(s, message);
    assert r.written[..r.done] == s.written[..s.done];
    assert s.submitted + [message] == s.written[..s.done] + (s.queue + [message]);
  }

  /** No completion fails while another message waits behind the failed one. */
  predicate NoFailureWithBacklog<T>(s: Stream<T>, steps: seq<Step<T>>)
    requires Serial(s) && IsRun(s, steps)
    decreases |steps|
  {
    steps != [] ==>
      && (steps[0].Complete? ==> steps[0].success || |s.queue| == 1)
      && NoFailureWithBacklog(Next(s, steps[0]), steps[1..])
  }

  predicate StaysInOrder<T(==)>(s: Stream<T>, steps: seq<Step<T>>)
    requires Serial(s) && IsRun(s, steps)
    decreases |steps|
  {
    InOrder(s) && (steps != [] ==> StaysInOrder(Next(s, steps[0]), steps[1..]))
  }

  /** Over any run, the order is kept throughout exactly when no completion fails with messages waiting. */
  lemma {:induction false} InOrderIff<T>(s: Stream<T>, steps: seq<Step<T>>)
    requires InOrder(s) && IsRun(s, steps)
    ensures StaysInOrder(s, steps) <==> NoFailureWithBacklog(s, steps)
    decreases |steps|
  {
    hide InOrder, Submitted, Completed;
    if steps != [] {
      SerialOf(s);
      var r := Next(s, steps[0]);
      match steps[0] {
        case Submit(m) =>
          SubmitInOrder(s, m);
          InOrderIff(r, steps[1..]);
        case Complete(success) =>
          CompletionInOrderIff(s, success);
          if success || |s.queue| == 1 {
            InOrderIff(r, steps[1..]);
          } else {
            OutOfOrderAtOnce(r, steps[1..]);
          }
      }
    }
  }

  lemma SerialOf<T>(s: Stream<T>)
    requires InOrder(s)
    ensures Serial(s)
  {
  }

  lemma OutOfOrderAtOnce<T>(s: Stream<T>, steps: seq<Step<T>>)
    requires Serial(s) && IsRun(s, steps) && !InOrder(s)
    ensures !StaysInOrder(s, steps)
  {
  }

  lemma {:induction false} EndsInOrder<T>(s: Stream<T>, steps: seq<Step<T>>)
    requires Serial(s) && IsRun(s, steps) && StaysInOrder(s, steps)
    ensures InOrder(Run(s, steps))
    decreases |steps|
  {
    if steps != [] {
      EndsInOrder(Next(s, steps[0]), steps[1..]);
    }
  }

  /** The messages of a run, in the order in which they are submitted. */
  function Messages<T>(steps: seq<Step<T>>): seq<T> {
    if steps == [] then []
    else (if steps[0].Submit? then [steps[0].message] else []) + Messages(steps[1..])
  }

  // The history of submissions is what the steps submit.
  lemma {:induction false} SubmittedIsMessages<T>(s: Stream<T>, steps: seq<Step<T>>)
    requires Serial(s) && IsRun(s, steps)
    ensures Run(s, steps).submitted == s.submitted + Messages(steps)
    decreases |steps|
  {
    if steps != [] {
      SubmittedIsMessages(Next(s, steps[0]), steps[1..]);
      assert s.submitted + Messages(steps)
          == s.submitted + (if steps[0].Submit? then [steps[0].message] else []) + Messages(steps[1..]);
    }
  }

  // What the order of a stream means for what it has written.
  lemma OrderMeans<T>(r: Stream<T>)
    requires InOrder(r)
    ensures r.written[..r.done] + r.queue == r.submitted && r.written <= r.submitted
    ensures !r.inProgress ==> r.written == r.submitted
  {
    if r.inProgress {
      assert r.written == r.written[..r.done] + [r.queue[0]];
      assert r.queue == [r.queue[0]] + r.queue[1..];
      assert r.submitted == r.written + r.queue[1..];
    } else {
      assert r.written[..r.done] == r.written;
    }
  }

  /** In such runs what is written is what was submitted, each message once and in order, up to what still waits;
      and once nothing is in progress it is all of it. */
  lemma WrittenOnceInOrder<T>(steps: seq<Step<T>>)
    requires IsRun(Idle<T>(), steps) && NoFailureWithBacklog(Idle<T>(), steps)
    ensures var r := Run(Idle<T>(), steps);
      && r.done <= |r.written| && r.written[..r.done] + r.queue == Messages(steps)
      && r.written <= Messages(steps)
      && (r.inProgress <==> r.queue != [])
      && (!r.inProgress ==> r.written == Messages(steps))
  {
    hide IsRun, NoFailureWithBacklog, Run, StaysInOrder, Messages;
    InOrderIff(Idle<T>(), steps);
    EndsInOrder(Idle<T>(), steps);
    SubmittedIsMessages(Idle<T>(), steps);
    OrderMeans(Run(Idle<T>(), steps));
  }

  // Successful completions empty the queue.
  lemma {:induction false} DrainFrom<T>(s: Stream<T>) returns (steps: seq<Step<T>>)
    requires InOrder(s)
    ensures |steps| == |s.queue| && (forall i :: 0 <= i < |steps| ==> steps[i] == Complete(true))
    ensures IsRun(s, steps) && NoFailureWithBacklog(s, steps) && Run(s, steps).queue == []
    decreases |s.queue|
  {
    if s.queue == [] {
      steps := [];
    } else {
      CompletionInOrderIff(s, true);
      var more := DrainFrom(Completed(s, true));
      steps := [Complete(true)] + more;
      assert steps[1..] == more;
    }
  }

  lemma {:induction false} RunAppend<T>(s: Stream<T>, steps: seq<Step<T>>, more: seq<Step<T>>)
    requires Serial(s) && IsRun(s, steps) && NoFailureWithBacklog(s, steps)
    requires IsRun(Run(s, steps), more) && NoFailureWithBacklog(Run(s, steps), more)
    ensures IsRun(s, steps + more) && NoFailureWithBacklog(s, steps + more)
    ensures Run(s, steps + more) == Run(Run(s, steps), more)
    decreases |steps|
  {
    if steps == [] {
      assert steps + more == more;
    } else {
      hide Submitted, Completed;
      assert (steps + more)[0] == steps[0] && (steps + more)[1..] == steps[1..] + more;
      RunAppend(Next(s, steps[0]), steps[1..], more);
    }
  }

  lemma {:induction false} MessagesAppend<T>(steps: seq<Step<T>>, more: seq<Step<T>>)
    requires forall i :: 0 <= i < |more| ==> more[i] == Complete(true)
    ensures Messages(steps + more) == Messages(steps)
    decreases |steps| + |more|
  {
    if steps != [] {
      assert (steps + more)[0] == steps[0] && (steps + more)[1..] == steps[1..] + more;
      MessagesAppend(steps[1..], more);
    } else if more != [] {
      assert steps + more == more && [] + more[1..] == more[1..];
      MessagesAppend(steps, more[1..]);
    } else {
      assert steps + more == [];
    }
  }

  /** As many successful completions as messages are queued write everything that was submitted. */
  lemma QueueDrains<T>(steps: seq<Step<T>>) returns (more: seq<Step<T>>)
    requires IsRun(Idle<T>(), steps) && NoFailureWithBacklog(Idle<T>(), steps)
    ensures |more| == |Run(Idle<T>(), steps).queue| && (forall i :: 0 <= i < |more| ==> more[i] == Complete(true))
    ensures IsRun(Idle<T>(), steps + more) && Run(Idle<T>(), steps + more).written == Messages(steps)
  {
    InOrderIff(Idle<T>(), steps);
    EndsInOrder(Idle<T>(), steps);
    more := DrainFrom(Run(Idle<T>(), steps));
    RunAppend(Idle<T>(), steps, more);
    MessagesAppend(steps, more);
    WrittenOnceInOrder(steps + more);
  }

  /** A failure with a message waiting loses it: of 1, 2 and 3, the second is never written and the third
      is written twice. */
  lemma FailureLosesAMessage()
    ensures var steps: seq<Step<nat>> := [Submit(1), Submit(2), Complete(false), Submit(3), Complete(true), Complete(true)];
      IsRun(Idle<nat>(), steps) && Run(Idle<nat>(), steps).written == [1, 3, 3] && Run(Idle<nat>(), steps).queue == []
  {
    var steps: seq<Step<nat>> := [Submit(1), Submit(2), Complete(false), Submit(3), Complete(true), Complete(true)];
    var s1 := Submitted(Idle<nat>(), 1);
    var s2 := Submitted(s1, 2);
    var s3 := Completed(s2, false);
    var s4 := Submitted(s3, 3);
    var s5 := Completed(s4, true);
    var s6 := Completed(s5, true);
    assert s5.queue == [3] && s6.queue == [];
    var t1 := steps[1..];
    var t2 := t1[1..];
    var t3 := t2[1..];
    var t4 := t3[1..];
    var t5 := t4[1..];
    assert t1[0] == Submit(2) && t2[0] == Complete(false) && t3[0] == Submit(3) && t4[0] == Complete(true) && t5 == [Complete(true)];
    assert t5[1..] == [];
    assert IsRun(s6, []) && Run(s6, []) == s6;
    assert IsRun(s5, t5) && Run(s5, t5) == s6;
    assert IsRun(s4, t4) && Run(s4, t4) == s6;
    assert IsRun(s3, t3) && Run(s3, t3) == s6;
    assert IsRun(s2, t2) && Run(s2, t2) == s6;
    assert IsRun(s1, t1) && Run(s1, t1) == s6;
  }
}
