/** Joining the fragments of interleaved messages. */
module Reassembly {
  import opened Results
  import opened Bits

  const MAX_MESSAGE: nat := 64 * 1024 * 1024
  const MAX_PENDING: nat := 256

  datatype Message = Message(command: byte, sequence: u16, payload: seq<byte>, fragments: nat)

  /** One deciphered fragment. */
  datatype Fragment = Fragment(command: byte, sequence: u16, final: bool, payload: seq<byte>)

  /** What is held of an unfinished message. */
  datatype Draft = Draft(command: byte, payload: seq<byte>, count: nat)

  type Pending = map<u16, Draft>

  function Extended(pending: Pending, f: Fragment): Draft {
    if f.sequence in pending then
      var d := pending[f.sequence];
      Draft(d.command, d.payload + f.payload, d.count + 1)
    else Draft(f.command, f.payload, 1)
  }

  /** The fragment continues its message with the same command, stays within the
      size limit, and opens no draft beyond the pending limit. */
  predicate Acceptable(pending: Pending, f: Fragment, maxMessage: nat, maxPending: nat) {
    && (f.sequence in pending ==> pending[f.sequence].command == f.command)
    && |Extended(pending, f).payload| <= maxMessage
    && (f.sequence in pending || f.final || |pending| < maxPending)
  }

  function After(pending: Pending, f: Fragment): Pending {
    if f.final then pending - {f.sequence} else pending[f.sequence := Extended(pending, f)]
  }

  function Completed(pending: Pending, f: Fragment): Option<Message> {
    var d := Extended(pending, f);
    if f.final then Some(Message(d.command, f.sequence, d.payload, d.count)) else None
  }

  function PushResult(pending: Pending, f: Fragment, maxMessage: nat, maxPending: nat):
    Result<(Option<Message>, Pending)>
  {
    if Acceptable(pending, f, maxMessage, maxPending) then Ok((Completed(pending, f), After(pending, f))) else Err
  }

  class Reassembler {
    const maxMessage: nat
    const maxPending: nat
    var pending: Pending

    constructor (maxMessage: nat, maxPending: nat)
      ensures this.maxMessage == maxMessage && this.maxPending == maxPending && pending == map[]
    {
      this.maxMessage, this.maxPending, pending := maxMessage, maxPending, map[];
    }

    /** Everything is checked before anything is changed. */
    method Push(f: Fragment) returns (r: Result<Option<Message>>)
      modifies `pending
      ensures match PushResult(old(pending), f, maxMessage, maxPending)
              case Ok((message, after)) => r == Ok(message) && pending == after
              case Err => r.Err? && pending == old(pending)
    {
      var priorIsNone := f.sequence !in pending;
      if !priorIsNone {
        var d := pending[f.sequence];
        if d.command != f.command {
          return Err;
        }
        if |d.payload| + |f.payload| > maxMessage {
          return Err;
        }
      } else if |f.payload| > maxMessage {
        return Err;
      }
      if priorIsNone && !f.final && |pending| >= maxPending {
        return Err;
      }
      var command, payload, count := f.command, [], 0;
      if f.sequence in pending {
        var d := pending[f.sequence];
        command, payload, count := d.command, d.payload, d.count;
        pending := pending - {f.sequence};
      }
      payload := payload + f.payload;
      count := count + 1;
      assert Draft(command, payload, count) == Extended(old(pending), f);
      if f.final {
        return Ok(Some(Message(command, f.sequence, payload, count)));
      }
      pending := pending[f.sequence := Draft(command, payload, count)];
      return Ok(None);
    }

    method Finish() returns (r: Result<()>)
      ensures r.Ok? <==> pending == map[]
    {
      return if |pending| > 0 then Err else Ok(());
    }
  }

  // ---- per-sequence logs --------------------------------------------------

  /** The accepted fragments of a sequence since its last final one. */
  function Log(accepted: seq<Fragment>, sequence: u16): seq<Fragment> {
    if |accepted| == 0 then [] else
    var before, last := accepted[..|accepted| - 1], accepted[|accepted| - 1];
    if last.sequence != sequence then Log(before, sequence)
    else if last.final then []
    else Log(before, sequence) + [last]
  }

  function Payloads(fs: seq<Fragment>): seq<byte> {
    if |fs| == 0 then [] else Payloads(fs[..|fs| - 1]) + fs[|fs| - 1].payload
  }

  /** The messages an accepted history stands for: one per final fragment, made
      of its sequence's log. */
  function Emitted(accepted: seq<Fragment>): seq<Message> {
    if |accepted| == 0 then [] else
    var before, last := accepted[..|accepted| - 1], accepted[|accepted| - 1];
    if !last.final then Emitted(before) else
    var whole := Log(before, last.sequence) + [last];
    Emitted(before) + [Message(whole[0].command, last.sequence, Payloads(whole), |whole|)]
  }

  datatype Run = Run(pending: Pending, accepted: seq<Fragment>, emitted: seq<Message>)

  /** Push fragment after fragment; a rejected one changes nothing. */
  function RunOf(fs: seq<Fragment>, maxMessage: nat, maxPending: nat): Run {
    if |fs| == 0 then Run(map[], [], []) else
    var run := RunOf(fs[..|fs| - 1], maxMessage, maxPending);
    var f := fs[|fs| - 1];
    match PushResult(run.pending, f, maxMessage, maxPending)
    case Err => run
    case Ok((message, after)) =>
      Run(after, run.accepted + [f], run.emitted + if message.Some? then [message.value] else [])
  }

  function DraftOf(log: seq<Fragment>): Draft
    requires |log| > 0
  {
    Draft(log[0].command, Payloads(log), |log|)
  }

  ghost predicate Refines(run: Run, maxMessage: nat, maxPending: nat) {
    && (forall s: u16 :: s in run.pending <==> |Log(run.accepted, s)| > 0)
    && (forall s: u16 :: s in run.pending ==> run.pending[s] == DraftOf(Log(run.accepted, s)))
    && (forall s: u16 :: s in run.pending ==> |run.pending[s].payload| <= maxMessage)
    && |run.pending| <= maxPending
    && run.emitted == Emitted(run.accepted)
    && (forall m :: m in run.emitted ==> |m.payload| <= maxMessage)
  }

  lemma LogStep(accepted: seq<Fragment>, f: Fragment, s: u16)
    ensures Log(accepted + [f], s) ==
            if f.sequence != s then Log(accepted, s) else if f.final then [] else Log(accepted, s) + [f]
    ensures Emitted(accepted + [f]) ==
      if !f.final then Emitted(accepted) else
      var whole := Log(accepted, f.sequence) + [f];
      Emitted(accepted) + [Message(whole[0].command, f.sequence, Payloads(whole), |whole|)]
  {
    hide Payloads;
    assert (accepted + [f])[..|accepted|] == accepted;
  }

  lemma PayloadsStep(log: seq<Fragment>, f: Fragment)
    ensures Payloads(log + [f]) == Payloads(log) + f.payload
  {
    assert (log + [f])[..|log|] == log;
  }

  lemma StepRefines(run: Run, f: Fragment, maxMessage: nat, maxPending: nat)
    requires Refines(run, maxMessage, maxPending) && Acceptable(run.pending, f, maxMessage, maxPending)
    ensures var message := Completed(run.pending, f);
      Refines(Run(After(run.pending, f), run.accepted + [f],
                  run.emitted + if message.Some? then [message.value] else []),
              maxMessage, maxPending)
  {
    hide Log, Payloads, Emitted, Extended, Acceptable;
    var log := Log(run.accepted, f.sequence);
    StepFits(run.pending, f, maxMessage, maxPending);
    LogStep(run.accepted, f, f.sequence);
    DraftExtends(run.pending, f, log);
    forall s: u16 | s != f.sequence ensures Log(run.accepted + [f], s) == Log(run.accepted, s) {
      LogStep(run.accepted, f, s);
    }
  }

  lemma StepFits(pending: Pending, f: Fragment, maxMessage: nat, maxPending: nat)
    requires Acceptable(pending, f, maxMessage, maxPending) && |pending| <= maxPending
    ensures |Extended(pending, f).payload| <= maxMessage && |After(pending, f)| <= maxPending
  {
    PendingSize(pending, f);
  }

  lemma DraftExtends(pending: Pending, f: Fragment, log: seq<Fragment>)
    requires f.sequence in pending <==> |log| > 0
    requires f.sequence in pending ==> pending[f.sequence] == DraftOf(log)
    ensures Extended(pending, f) == DraftOf(log + [f])
  {
    hide Payloads;
    PayloadsStep(log, f);
    NoPayloads();
    assert |log| > 0 ==> (log + [f])[0] == log[0];
  }

  lemma NoPayloads()
    ensures forall fs: seq<Fragment> :: |fs| == 0 ==> Payloads(fs) == []
  {
  }

  lemma PendingSize(pending: Pending, f: Fragment)
    ensures f.final ==> |After(pending, f)| <= |pending|
    ensures !f.final ==> |After(pending, f)| == if f.sequence in pending then |pending| else |pending| + 1
  {
    var after := After(pending, f);
    if f.final {
      assert after.Keys == pending.Keys - {f.sequence};
      assert |pending.Keys - {f.sequence}| <= |pending.Keys|;
      assert |after| == |after.Keys|;
    } else if f.sequence in pending {
      assert after.Keys == pending.Keys;
    } else {
      assert after.Keys == pending.Keys + {f.sequence};
    }
  }

  /** After any run of pushes the pending drafts are exactly the logs of the
      unfinished sequences, the emitted messages are exactly the finished logs in
      order, and the limits hold. */
  lemma {:induction false} RunRefinesLogs(fs: seq<Fragment>, maxMessage: nat, maxPending: nat)
    ensures Refines(RunOf(fs, maxMessage, maxPending), maxMessage, maxPending)
  {
    if |fs| > 0 {
      hide Refines, Acceptable, Completed, After;
      RunRefinesLogs(fs[..|fs| - 1], maxMessage, maxPending);
      var run := RunOf(fs[..|fs| - 1], maxMessage, maxPending);
      if Acceptable(run.pending, fs[|fs| - 1], maxMessage, maxPending) {
        StepRefines(run, fs[|fs| - 1], maxMessage, maxPending);
      }
    }
  }

  /** After any run a fragment is taken exactly when the log it continues, if any, began
      with its command, the whole stays within the size limit, and it continues a log,
      is a message of its own, or finds fewer open sequences than the limit. Anything
      else leaves everything as it was. */
  lemma TakenExactly(fs: seq<Fragment>, f: Fragment, maxMessage: nat, maxPending: nat)
    ensures var (run, after) := (RunOf(fs, maxMessage, maxPending), RunOf(fs + [f], maxMessage, maxPending));
      var log := Log(run.accepted, f.sequence);
      if (|log| == 0 || log[0].command == f.command) && |Payloads(log)| + |f.payload| <= maxMessage
         && (|log| > 0 || f.final || |run.pending| < maxPending)
      then after.accepted == run.accepted + [f] else after == run
  {
    hide Log, Payloads;
    assert (fs + [f])[..|fs|] == fs;
    RunRefinesLogs(fs, maxMessage, maxPending);
    NoPayloads();
  }
}
