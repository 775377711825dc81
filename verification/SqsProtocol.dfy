/**
 The repository and its queue as a state machine: calls interleave only at their `await`, the queue
 delivers at least once, and any request may fail to take effect.
 */
module SqsProtocol {
  import opened Wrappers
  import opened OrderedSet
  import opened SqsCodec
  import opened SqsRepository

  type MessageId = nat
  type CallId = nat

  /** Where a message stands: a delivery puts it in flight under the receipt it was given. */
  datatype Delivery = Visible | InFlight(receipt: Receipt) | Deleted

  /** A call of `getNextJobToRun` at its `await`: before and after the queue has answered. */
  datatype Call = Asking(name: string) | Answered(name: string, batch: seq<Message>)

  datatype Handout = Handout(name: string, job: Job)

  /**
   `owner`, `received`, `handed`, `released`, `left` and `acked` record the run; the rest is the state proper.
   `left` lists the jobs that left the repository, handed out or released, in the order in which they did.
   */
  datatype State = State(
    buffer: Buffer,
    calls: map<CallId, Call>,
    queue: map<MessageId, Delivery>,
    owner: map<Receipt, MessageId>,
    received: seq<Job>,
    handed: seq<Handout>,
    released: seq<Job>,
    left: seq<Job>,
    acked: set<Receipt>)

  const INITIAL := State(map[], map[], map[], map[], [], [], [], [], {})

  datatype Config = Config(dates: Dates, visibilityTimeout: int)

  /** One delivery of a message. */
  datatype Pick = Pick(id: MessageId, message: Message)

  datatype Step =
    | Send(id: MessageId)
    | Ask(call: CallId, name: string)
    | Answer(call: CallId, picks: seq<Pick>)
    | Lose(call: CallId)
    | Complete(call: CallId, now: Time)
    | Expire(id: MessageId)
    | Save(job: Job, now: Time, later: Time, applied: bool)
    | Unlock(unlocked: Job, applied: bool)
    | Disconnect(jobs: seq<Job>, effective: set<Receipt>)

  // ---------- Steps ----------

  function Batch(picks: seq<Pick>): (batch: seq<Message>)
    ensures |batch| == |picks| && forall i :: 0 <= i < |picks| ==> batch[i] == picks[i].message
  {
    seq(|picks|, i requires 0 <= i < |picks| => picks[i].message)
  }

  /** The queue may deliver any message that is not deleted, each time under a receipt never used before. */
  ghost predicate FreshPicks(s: State, picks: seq<Pick>) {
    && (forall i :: 0 <= i < |picks| ==>
        && picks[i].id in s.queue && s.queue[picks[i].id] != Deleted
        && picks[i].message.receipt.Some? && picks[i].message.receipt.value != ""
        && picks[i].message.receipt.value !in s.owner)
    && (forall i, j :: 0 <= i < j < |picks| ==>
        picks[i].id != picks[j].id && picks[i].message.receipt != picks[j].message.receipt)
  }

  function Deliver(queue: map<MessageId, Delivery>, picks: seq<Pick>): map<MessageId, Delivery> {
    if picks == [] then queue else
      var last := picks[|picks| - 1];
      var before := Deliver(queue, picks[..|picks| - 1]);
      if last.message.receipt.Some? then before[last.id := InFlight(last.message.receipt.value)] else before
  }

  function Issue(owner: map<Receipt, MessageId>, picks: seq<Pick>): map<Receipt, MessageId> {
    if picks == [] then owner else
      var last := picks[|picks| - 1];
      var before := Issue(owner, picks[..|picks| - 1]);
      if last.message.receipt.Some? then before[last.message.receipt.value := last.id] else before
  }

  /** The queue's side of a command. A visibility change works only under the message's latest receipt. */
  function Obey(s: State, command: Command): map<MessageId, Delivery> {
    var receipt := command.receipt;
    if receipt !in s.owner || s.owner[receipt] !in s.queue then s.queue
    else if command.DeleteMessage? then s.queue[s.owner[receipt] := Deleted]
    else if s.queue[s.owner[receipt]] == InFlight(receipt) && command.timeout <= 0 then
      s.queue[s.owner[receipt] := Visible]
    else s.queue
  }

  /** Releases every job of the list whose request takes effect. */
  function ReleaseAll(s: State, jobs: seq<Job>, effective: set<Receipt>): State {
    if jobs == [] then s else
      var job := jobs[|jobs| - 1];
      var before := ReleaseAll(s, jobs[..|jobs| - 1], effective);
      if HasReceipt(job) && job.receipt.value in effective
      then before.(queue := Obey(before, ChangeVisibility(job.receipt.value, 0))) else before
  }

  predicate Finished(job: Job) {
    HasReceipt(job) && IsDone(job)
  }

  /** A worker saves jobs it was handed, however it has changed their other fields. */
  ghost predicate WasHanded(s: State, job: Job) {
    job.receipt.Some? ==> exists i :: 0 <= i < |s.handed| && s.handed[i].job.receipt == job.receipt
  }

  /** `disconnect` releases the buffered jobs along the map. */
  ghost predicate AllBuffered(buffer: Buffer, jobs: seq<Job>) {
    exists names :: IsWalk(buffer, names) && jobs == Along(buffer, names)
  }

  ghost predicate Enabled(s: State, step: Step) {
    match step
    case Send(id) => id !in s.queue
    case Ask(call, _) => call !in s.calls
    case Answer(call, picks) => call in s.calls && s.calls[call].Asking? && FreshPicks(s, picks)
    case Lose(call) => call in s.calls
    case Complete(call, _) => call in s.calls && s.calls[call].Answered?
    case Expire(id) => id in s.queue && s.queue[id].InFlight?
    case Save(job, _, _, _) => WasHanded(s, job)
    case Unlock(_, _) => true
    case Disconnect(jobs, _) => s.calls == map[] && AllBuffered(s.buffer, jobs)
  }

  function Next(c: Config, s: State, step: Step): State {
    match step
    case Send(id) => s.(queue := s.queue[id := Visible])
    case Ask(call, name) =>
      var queue := Buffered(s.buffer, name);
      if queue == [] then s.(calls := s.calls[call := Asking(name)])
      else s.(buffer := s.buffer[name := queue[1..]], handed := s.handed + [Handout(name, queue[0])],
              left := s.left + [queue[0]])
    case Answer(call, picks) =>
      if call !in s.calls then s else
        s.(calls := s.calls[call := Answered(s.calls[call].name, Batch(picks))],
           queue := Deliver(s.queue, picks), owner := Issue(s.owner, picks))
    case Lose(call) => s.(calls := s.calls - {call})
    case Complete(call, now) =>
      if call !in s.calls || s.calls[call].Asking? then s else
        Finish(s, call, s.calls[call].name, Delivered(c.dates, s.calls[call].batch, now))
    case Expire(id) => s.(queue := s.queue[id := Visible])
    case Save(job, now, later, applied) =>
      var command := SaveCommand(c.visibilityTimeout, job, now, later);
      if command.None? || !applied then s else
        s.(queue := Obey(s, command.value),
           acked := if command.value.DeleteMessage? then s.acked + {command.value.receipt} else s.acked)
    case Unlock(job, applied) =>
      if HasReceipt(job) && applied then s.(queue := Obey(s, ChangeVisibility(job.receipt.value, 0))) else s
    case Disconnect(jobs, effective) =>
      ReleaseAll(s, jobs, effective).(buffer := map[], released := s.released + jobs, left := s.left + jobs)
  }

  /** The synchronous part of a call after its `await`. */
  function Finish(s: State, call: CallId, name: string, jobs: seq<Job>): State {
    var matched := FirstNamed(jobs, name);
    s.(calls := s.calls - {call},
       buffer := BufferAll(s.buffer, WithoutFirst(jobs, name)),
       received := s.received + jobs,
       handed := s.handed + (if matched.Some? then [Handout(name, matched.value)] else []),
       left := s.left + if matched.Some? then [matched.value] else [])
  }

  // ---------- Runs ----------

  function Final(c: Config, s: State, steps: seq<Step>): State {
    if steps == [] then s else Next(c, Final(c, s, steps[..|steps| - 1]), steps[|steps| - 1])
  }

  ghost predicate IsRun(c: Config, steps: seq<Step>) {
    forall i :: 0 <= i < |steps| ==> Enabled(Final(c, INITIAL, steps[..i]), steps[i])
  }

  // ---------- What every state satisfies ----------

  function HandedJobs(handed: seq<Handout>): (jobs: seq<Job>)
    ensures |jobs| == |handed| && forall i :: 0 <= i < |handed| ==> jobs[i] == handed[i].job
  {
    seq(|handed|, i requires 0 <= i < |handed| => handed[i].job)
  }

  /** How often the run accounts for a job: handed out, still buffered, or released at the end. */
  function Accounted(s: State, job: Job): nat {
    multiset(HandedJobs(s.handed))[job] + multiset(Buffered(s.buffer, job.name))[job] + multiset(s.released)[job]
  }

  /** Every received job is accounted for as often as it was received. */
  ghost predicate Conserved(s: State) {
    forall job :: multiset(s.received)[job] == Accounted(s, job)
  }

  ghost predicate RightNames(s: State) {
    && NamesMatch(s.buffer)
    && forall i :: 0 <= i < |s.handed| ==> s.handed[i].job.name == s.handed[i].name
  }

  /** Receipts received so far are issued and pairwise different. */
  ghost predicate DistinctReceipts(jobs: seq<Job>) {
    && (forall i :: 0 <= i < |jobs| ==> jobs[i].receipt.Some?)
    && (forall i, j :: 0 <= i < j < |jobs| ==> jobs[i].receipt != jobs[j].receipt)
  }

  /** The receipts of an answer: issued, pairwise different, and not received yet. */
  ghost predicate BatchFresh(s: State, batch: seq<Message>) {
    && (forall i :: 0 <= i < |batch| ==> batch[i].receipt.Some? && batch[i].receipt.value in s.owner)
    && (forall i, j :: 0 <= i < j < |batch| ==> batch[i].receipt != batch[j].receipt)
    && (forall i, k :: 0 <= i < |batch| && 0 <= k < |s.received| ==> batch[i].receipt != s.received[k].receipt)
  }

  ghost predicate BatchesApart(a: seq<Message>, b: seq<Message>) {
    forall i, j :: 0 <= i < |a| && 0 <= j < |b| ==> a[i].receipt != b[j].receipt
  }

  ghost predicate ReceiptsInOrder(s: State) {
    && DistinctReceipts(s.received)
    && (forall k :: 0 <= k < |s.received| ==> s.received[k].receipt.Some? && s.received[k].receipt.value in s.owner)
    && (forall call :: call in s.calls && s.calls[call].Answered? ==> BatchFresh(s, s.calls[call].batch))
    && (forall a, b :: a in s.calls && b in s.calls && a != b && s.calls[a].Answered? && s.calls[b].Answered? ==>
        BatchesApart(s.calls[a].batch, s.calls[b].batch))
  }

  /** The messages deleted are those of the finished jobs whose deletion took effect, and those jobs were handed out. */
  ghost predicate DeletedWhenFinished(s: State) {
    && (forall receipt :: receipt in s.owner ==> s.owner[receipt] in s.queue)
    && (forall receipt :: receipt in s.acked ==> receipt in s.owner)
    && (forall receipt :: receipt in s.acked ==> WasReceiptHanded(s, receipt))
    && (forall id :: id in s.queue ==> (s.queue[id] == Deleted <==> WasAcked(s, id)))
  }

  ghost predicate WasAcked(s: State, id: MessageId) {
    exists receipt :: receipt in s.acked && receipt in s.owner && s.owner[receipt] == id
  }

  ghost predicate WasReceiptHanded(s: State, receipt: Receipt) {
    exists i :: 0 <= i < |s.handed| && s.handed[i].job.receipt == Some(receipt)
  }

  // ---------- Names and conservation ----------

  lemma {:induction false} BufferAllKeepsNames(buffer: Buffer, jobs: seq<Job>)
    requires NamesMatch(buffer)
    ensures NamesMatch(BufferAll(buffer, jobs))
  {
    if jobs != [] {
      BufferAllKeepsNames(buffer, jobs[..|jobs| - 1]);
    }
  }

  lemma {:induction false} ReleaseChangesQueueOnly(s: State, jobs: seq<Job>, effective: set<Receipt>)
    ensures ReleaseAll(s, jobs, effective) == s.(queue := ReleaseAll(s, jobs, effective).queue)
  {
    if jobs != [] {
      ReleaseChangesQueueOnly(s, jobs[..|jobs| - 1], effective);
    }
  }

  lemma {:induction false} KeepsNames(c: Config, s: State, step: Step)
    requires Enabled(s, step) && RightNames(s)
    ensures RightNames(Next(c, s, step))
  {
    match step
    case Complete(call, now) =>
      var jobs, name := Delivered(c.dates, s.calls[call].batch, now), s.calls[call].name;
      BufferAllKeepsNames(s.buffer, WithoutFirst(jobs, name));
      NamedHasName(jobs, name);
    case Disconnect(jobs, effective) => ReleaseChangesQueueOnly(s, jobs, effective);
    case _ =>
  }

  lemma {:induction false} HandedExtend(handed: seq<Handout>, h: Handout)
    ensures HandedJobs(handed + [h]) == HandedJobs(handed) + [h.job]
  {
  }

  lemma {:induction false} CountExtend(jobs: seq<Job>, more: seq<Job>, job: Job)
    ensures multiset(jobs + more)[job] == multiset(jobs)[job] + multiset(more)[job]
  {
  }

  /** Handing out a buffered job moves it, and moves no other. */
  lemma {:induction false} HandOutConserves(s: State, name: string, job: Job)
    requires RightNames(s) && Buffered(s.buffer, name) != []
    ensures var queue := Buffered(s.buffer, name);
            Accounted(s.(buffer := s.buffer[name := queue[1..]], handed := s.handed + [Handout(name, queue[0])],
                         left := s.left + [queue[0]]), job)
            == Accounted(s, job)
  {
    var queue := Buffered(s.buffer, name);
    HandedExtend(s.handed, Handout(name, queue[0]));
    CountExtend(HandedJobs(s.handed), [queue[0]], job);
    assert queue == [queue[0]] + queue[1..];
    CountExtend([queue[0]], queue[1..], job);
    assert queue[0].name == name;
    if job.name != name {
      assert multiset([queue[0]])[job] == 0;
    }
  }

  function One(b: bool): nat {
    if b then 1 else 0
  }

  lemma {:induction false} SplitCount(jobs: seq<Job>, name: string, job: Job)
    ensures multiset(jobs)[job]
         == One(FirstNamed(jobs, name) == Some(job)) + multiset(Named(WithoutFirst(jobs, name), job.name))[job]
  {
    var rest := Named(WithoutFirst(jobs, name), job.name);
    var first := FirstNamed(jobs, name);
    NamedKeepsCount(jobs, job);
    BatchByName(jobs, name, job.name);
    NamedHasName(jobs, name);
    if job.name == name && first.Some? {
      CountExtend([first.value], rest, job);
    } else {
      assert [] + rest == rest;
    }
  }

  lemma {:induction false} HandedCount(handed: seq<Handout>, name: string, matched: Option<Job>, job: Job)
    ensures multiset(HandedJobs(handed + if matched.Some? then [Handout(name, matched.value)] else []))[job]
         == multiset(HandedJobs(handed))[job] + One(matched == Some(job))
  {
    if matched.Some? {
      HandedExtend(handed, Handout(name, matched.value));
      CountExtend(HandedJobs(handed), [matched.value], job);
    } else {
      assert handed + [] == handed;
    }
  }

  /** A batch is accounted for job by job: handed out or buffered. */
  lemma {:induction false} FinishConserves(s: State, call: CallId, name: string, jobs: seq<Job>, job: Job)
    ensures Accounted(Finish(s, call, name, jobs), job) == Accounted(s, job) + multiset(jobs)[job]
  {
    var rest := WithoutFirst(jobs, name);
    assert multiset(Buffered(BufferAll(s.buffer, rest), job.name))[job]
        == multiset(Buffered(s.buffer, job.name))[job] + multiset(Named(rest, job.name))[job] by {
      BufferAllByName(s.buffer, rest, job.name);
      CountExtend(Buffered(s.buffer, job.name), Named(rest, job.name), job);
    }
    SplitCount(jobs, name, job);
    HandedCount(s.handed, name, FirstNamed(jobs, name), job);
  }

  lemma {:induction false} KeepsConserved(c: Config, s: State, step: Step)
    requires Enabled(s, step) && RightNames(s) && Conserved(s)
    ensures Conserved(Next(c, s, step))
  {
    forall job ensures multiset(Next(c, s, step).received)[job] == Accounted(Next(c, s, step), job) {
      assert multiset(s.received)[job] == Accounted(s, job);
      AccountsFor(c, s, step, job);
    }
  }

  lemma {:induction false} AccountsFor(c: Config, s: State, step: Step, job: Job)
    requires Enabled(s, step) && RightNames(s) && multiset(s.received)[job] == Accounted(s, job)
    ensures multiset(Next(c, s, step).received)[job] == Accounted(Next(c, s, step), job)
  {
    match step
    case Ask(_, name) =>
      if Buffered(s.buffer, name) != [] {
        HandOutConserves(s, name, job);
      }
    case Complete(call, now) =>
      var jobs := Delivered(c.dates, s.calls[call].batch, now);
      FinishConserves(s, call, s.calls[call].name, jobs, job);
      CountExtend(s.received, jobs, job);
    case Disconnect(jobs, effective) =>
      ReleaseChangesQueueOnly(s, jobs, effective);
      CountExtend(s.released, jobs, job);
      var names :| IsWalk(s.buffer, names) && jobs == Along(s.buffer, names);
      WalkMeetsAll(s.buffer, names, job);
    case _ =>
  }

  // ---------- Receipts ----------

  /** The jobs of a batch carry receipts of the batch, each at most once. */
  lemma {:induction false} DeliveredReceipts(d: Dates, batch: seq<Message>, now: Time)
    requires forall i :: 0 <= i < |batch| ==> batch[i].receipt.Some?
    requires forall i, j :: 0 <= i < j < |batch| ==> batch[i].receipt != batch[j].receipt
    ensures DistinctReceipts(Delivered(d, batch, now))
    ensures forall k :: 0 <= k < |Delivered(d, batch, now)| ==> ReceiptIn(Delivered(d, batch, now)[k].receipt, batch)
  {
    if batch != [] {
      var before, last := batch[..|batch| - 1], batch[|batch| - 1];
      DeliveredReceipts(d, before, now);
      forall receipt | ReceiptIn(receipt, before) ensures ReceiptIn(receipt, batch) && receipt != last.receipt {
        var i :| 0 <= i < |before| && before[i].receipt == receipt;
        assert batch[i].receipt == receipt;
      }
      if JobOf(d, last, now).Some? {
        JobsAreNamed(d, last, now);
        assert batch[|batch| - 1].receipt == JobOf(d, last, now).value.receipt;
      }
    }
  }

  ghost predicate ReceiptIn(receipt: Option<Receipt>, batch: seq<Message>) {
    exists i :: 0 <= i < |batch| && batch[i].receipt == receipt
  }

  lemma {:induction false} IssueKeeps(owner: map<Receipt, MessageId>, picks: seq<Pick>, receipt: Receipt)
    requires forall i :: 0 <= i < |picks| ==> picks[i].message.receipt != Some(receipt)
    ensures receipt in Issue(owner, picks) <==> receipt in owner
    ensures receipt in owner ==> Issue(owner, picks)[receipt] == owner[receipt]
  {
    if picks != [] {
      IssueKeeps(owner, picks[..|picks| - 1], receipt);
    }
  }

  lemma {:induction false} IssueGives(owner: map<Receipt, MessageId>, picks: seq<Pick>, i: nat)
    requires i < |picks| && picks[i].message.receipt.Some?
    ensures var receipt := picks[i].message.receipt.value;
      && receipt in Issue(owner, picks)
      && exists j :: 0 <= j < |picks| && Issue(owner, picks)[receipt] == picks[j].id
  {
    var n := |picks| - 1;
    var receipt := picks[i].message.receipt.value;
    if picks[n].message.receipt == Some(receipt) {
      assert Issue(owner, picks)[receipt] == picks[n].id;
    } else {
      IssueGives(owner, picks[..n], i);
      var j :| 0 <= j < n && Issue(owner, picks[..n])[receipt] == picks[..n][j].id;
      assert Issue(owner, picks)[receipt] == picks[j].id;
    }
  }

  lemma {:induction false} IssueAdds(owner: map<Receipt, MessageId>, picks: seq<Pick>)
    requires forall i :: 0 <= i < |picks| ==> picks[i].message.receipt.Some? && picks[i].message.receipt.value !in owner
    ensures forall receipt :: receipt in owner ==>
      receipt in Issue(owner, picks) && Issue(owner, picks)[receipt] == owner[receipt]
    ensures forall i :: 0 <= i < |picks| ==> picks[i].message.receipt.value in Issue(owner, picks)
    ensures forall receipt :: receipt in Issue(owner, picks) && receipt !in owner ==>
      exists i :: 0 <= i < |picks| && Issue(owner, picks)[receipt] == picks[i].id
  {
    hide Issue;
    forall receipt | receipt in owner
      ensures receipt in Issue(owner, picks) && Issue(owner, picks)[receipt] == owner[receipt]
    {
      IssueKeeps(owner, picks, receipt);
    }
    forall i | 0 <= i < |picks| ensures picks[i].message.receipt.value in Issue(owner, picks) {
      IssueGives(owner, picks, i);
    }
    forall receipt | receipt in Issue(owner, picks) && receipt !in owner
      ensures exists i :: 0 <= i < |picks| && Issue(owner, picks)[receipt] == picks[i].id
    {
      if i :| 0 <= i < |picks| && picks[i].message.receipt == Some(receipt) {
        IssueGives(owner, picks, i);
      } else {
        IssueKeeps(owner, picks, receipt);
      }
    }
  }

  lemma {:induction false} AnswerIsFresh(s: State, picks: seq<Pick>, s': State)
    requires FreshPicks(s, picks) && ReceiptsInOrder(s)
    requires s'.received == s.received && s'.owner == Issue(s.owner, picks)
    ensures BatchFresh(s', Batch(picks))
  {
    var batch := Batch(picks);
    IssueAdds(s.owner, picks);
    forall i, k | 0 <= i < |batch| && 0 <= k < |s.received| ensures batch[i].receipt != s.received[k].receipt {
      assert picks[i].message.receipt.value !in s.owner;
    }
  }

  /** A batch still waiting stays fresh, and shares no receipt with a new answer. */
  lemma {:induction false} WaitingStaysFresh(s: State, picks: seq<Pick>, s': State, waiting: seq<Message>)
    requires FreshPicks(s, picks) && BatchFresh(s, waiting)
    requires s'.received == s.received && s'.owner == Issue(s.owner, picks)
    ensures BatchFresh(s', waiting)
    ensures BatchesApart(waiting, Batch(picks)) && BatchesApart(Batch(picks), waiting)
  {
    IssueAdds(s.owner, picks);
    assert forall i :: 0 <= i < |picks| ==> picks[i].message.receipt.value !in s.owner;
  }

  lemma {:induction false} AnswerKeepsReceipts(c: Config, s: State, call: CallId, picks: seq<Pick>)
    requires Enabled(s, Answer(call, picks)) && ReceiptsInOrder(s)
    ensures ReceiptsInOrder(Next(c, s, Answer(call, picks)))
  {
    var s' := Next(c, s, Answer(call, picks));
    assert s'.received == s.received && s'.owner == Issue(s.owner, picks);
    assert s'.calls == s.calls[call := Answered(s.calls[call].name, Batch(picks))];
    AnswerIsFresh(s, picks, s');
    IssueAdds(s.owner, picks);
    forall other | other in s.calls && other != call && s.calls[other].Answered?
      ensures BatchFresh(s', s.calls[other].batch)
      ensures BatchesApart(s.calls[other].batch, Batch(picks)) && BatchesApart(Batch(picks), s.calls[other].batch)
    {
      WaitingStaysFresh(s, picks, s', s.calls[other].batch);
    }
    hide BatchFresh, BatchesApart, FreshPicks, Issue, Next;
  }

  lemma {:induction false} CompleteKeepsReceipts(c: Config, s: State, call: CallId, now: Time)
    requires Enabled(s, Complete(call, now)) && ReceiptsInOrder(s)
    ensures ReceiptsInOrder(Next(c, s, Complete(call, now)))
  {
    var s' := Next(c, s, Complete(call, now));
    var batch := s.calls[call].batch;
    var jobs := Delivered(c.dates, batch, now);
    assert BatchFresh(s, batch);
    DeliveredReceipts(c.dates, batch, now);
    assert s'.received == s.received + jobs && s'.calls == s.calls - {call} && s'.owner == s.owner;
    forall k | 0 <= k < |jobs|
      ensures jobs[k].receipt.value in s.owner
      ensures forall m :: 0 <= m < |s.received| ==> s.received[m].receipt != jobs[k].receipt
    {
      assert ReceiptIn(jobs[k].receipt, batch);
      var i :| 0 <= i < |batch| && batch[i].receipt == jobs[k].receipt;
    }
    forall other | other in s'.calls && s'.calls[other].Answered? ensures BatchFresh(s', s'.calls[other].batch) {
      JobsApart(s, batch, s.calls[other].batch, jobs);
    }
  }

  /** A batch still waiting shares no receipt with the jobs of another batch. */
  lemma {:induction false} JobsApart(s: State, batch: seq<Message>, other: seq<Message>, jobs: seq<Job>)
    requires BatchFresh(s, other) && BatchesApart(batch, other)
    requires forall k :: 0 <= k < |jobs| ==> ReceiptIn(jobs[k].receipt, batch)
    ensures forall i, k :: 0 <= i < |other| && 0 <= k < |s.received + jobs| ==>
      other[i].receipt != (s.received + jobs)[k].receipt
  {
    forall i, k | 0 <= i < |other| && 0 <= k < |jobs| ensures other[i].receipt != jobs[k].receipt {
      assert ReceiptIn(jobs[k].receipt, batch);
      var b :| 0 <= b < |batch| && batch[b].receipt == jobs[k].receipt;
    }
  }

  /** Receipts are settled by what was received, what was issued and the answers still waiting. */
  lemma {:induction false} SameReceiptsKeep(s: State, s': State)
    requires ReceiptsInOrder(s) && s'.received == s.received && s'.owner == s.owner
    requires forall call :: call in s'.calls && s'.calls[call].Answered? ==>
      call in s.calls && s.calls[call] == s'.calls[call]
    ensures ReceiptsInOrder(s')
  {
    forall call | call in s'.calls && s'.calls[call].Answered? ensures BatchFresh(s', s'.calls[call].batch) {
      assert BatchFresh(s, s.calls[call].batch);
    }
  }

  lemma {:induction false} KeepsReceipts(c: Config, s: State, step: Step)
    requires Enabled(s, step) && ReceiptsInOrder(s)
    ensures ReceiptsInOrder(Next(c, s, step))
  {
    match step
    case Answer(call, picks) => AnswerKeepsReceipts(c, s, call, picks);
    case Complete(call, now) => CompleteKeepsReceipts(c, s, call, now);
    case Disconnect(jobs, effective) =>
      ReleaseChangesQueueOnly(s, jobs, effective);
      SameReceiptsKeep(s, Next(c, s, step));
    case _ => SameReceiptsKeep(s, Next(c, s, step));
  }

  // ---------- Deletion ----------

  /** The same messages exist and the same ones are deleted. */
  ghost predicate SameDeleted(a: map<MessageId, Delivery>, b: map<MessageId, Delivery>) {
    a.Keys == b.Keys && forall id :: id in a ==> (a[id] == Deleted <==> b[id] == Deleted)
  }

  lemma {:induction false} ReleaseKeepsDeleted(s: State, jobs: seq<Job>, effective: set<Receipt>)
    ensures SameDeleted(s.queue, ReleaseAll(s, jobs, effective).queue)
  {
    if jobs != [] {
      ReleaseKeepsDeleted(s, jobs[..|jobs| - 1], effective);
    }
  }

  lemma {:induction false} DeliverKeepsDeleted(queue: map<MessageId, Delivery>, picks: seq<Pick>)
    requires forall i :: 0 <= i < |picks| ==> picks[i].id in queue && queue[picks[i].id] != Deleted
    ensures SameDeleted(queue, Deliver(queue, picks))
  {
    if picks != [] {
      DeliverKeepsDeleted(queue, picks[..|picks| - 1]);
    }
  }

  /** A job that was handed out was received, so its receipt was issued. */
  lemma {:induction false} HandedWasIssued(s: State, i: nat)
    requires Conserved(s) && ReceiptsInOrder(s) && i < |s.handed|
    ensures s.handed[i].job.receipt.Some? && s.handed[i].job.receipt.value in s.owner
  {
    var job := s.handed[i].job;
    assert HandedJobs(s.handed)[i] == job;
    assert job in multiset(HandedJobs(s.handed));
    assert multiset(s.received)[job] == Accounted(s, job) > 0;
    assert job in s.received;
  }

  lemma {:induction false} SaveKeepsDeleted(c: Config, s: State, job: Job, now: Time, later: Time, applied: bool)
    requires Enabled(s, Save(job, now, later, applied))
    requires Conserved(s) && ReceiptsInOrder(s) && DeletedWhenFinished(s)
    ensures DeletedWhenFinished(Next(c, s, Save(job, now, later, applied)))
  {
    var command := SaveCommand(c.visibilityTimeout, job, now, later);
    var s' := Next(c, s, Save(job, now, later, applied));
    if command.Some? && applied && command.value.DeleteMessage? {
      var receipt := command.value.receipt;
      var i :| 0 <= i < |s.handed| && s.handed[i].job.receipt == job.receipt;
      HandedWasIssued(s, i);
      assert WasReceiptHanded(s', receipt);
      DeleteAcks(s, s', receipt);
    }
  }

  lemma {:induction false} DeleteAcks(s: State, s': State, receipt: Receipt)
    requires DeletedWhenFinished(s) && receipt in s.owner && WasReceiptHanded(s, receipt)
    requires s' == s.(queue := s.queue[s.owner[receipt] := Deleted], acked := s.acked + {receipt})
    ensures DeletedWhenFinished(s')
  {
    forall id | id in s'.queue ensures s'.queue[id] == Deleted <==> WasAcked(s', id) {
      if s'.queue[id] == Deleted && id != s.owner[receipt] {
        assert WasAcked(s, id);
        var r :| r in s.acked && r in s.owner && s.owner[r] == id;
        assert r in s'.acked;
      }
      if id == s.owner[receipt] {
        assert receipt in s'.acked;
      }
      if WasAcked(s', id) {
        var r :| r in s'.acked && r in s'.owner && s'.owner[r] == id;
        assert r == receipt || WasAcked(s, id);
      }
    }
    forall r | r in s'.acked ensures WasReceiptHanded(s', r) {
      assert WasReceiptHanded(s, r);
    }
  }

  /** Deletion is settled by the queue, the receipts and the acknowledgements alone. */
  lemma {:induction false} SameDeletedKeeps(s: State, s': State)
    requires DeletedWhenFinished(s) && SameDeleted(s.queue, s'.queue) && s'.acked == s.acked
    requires forall receipt :: receipt in s.owner ==> receipt in s'.owner && s'.owner[receipt] == s.owner[receipt]
    requires forall receipt :: receipt in s'.owner ==> s'.owner[receipt] in s'.queue
    requires s.handed <= s'.handed
    ensures DeletedWhenFinished(s')
  {
    forall receipt | receipt in s'.acked ensures WasReceiptHanded(s', receipt) {
      assert WasReceiptHanded(s, receipt);
      var i :| 0 <= i < |s.handed| && s.handed[i].job.receipt == Some(receipt);
      assert s'.handed[i] == s.handed[i];
    }
    forall id | id in s'.queue ensures WasAcked(s', id) <==> WasAcked(s, id) {
    }
  }

  lemma {:induction false} SendKeepsDeleted(s: State, id: MessageId)
    requires DeletedWhenFinished(s) && id !in s.queue
    ensures DeletedWhenFinished(s.(queue := s.queue[id := Visible]))
  {
    var s' := s.(queue := s.queue[id := Visible]);
    forall other | other in s'.queue ensures s'.queue[other] == Deleted <==> WasAcked(s', other) {
      assert WasAcked(s', other) <==> WasAcked(s, other);
    }
    forall receipt | receipt in s'.acked ensures WasReceiptHanded(s', receipt) {
      assert WasReceiptHanded(s, receipt);
    }
  }

  lemma {:induction false} AnswerKeepsDeleted(c: Config, s: State, call: CallId, picks: seq<Pick>)
    requires Enabled(s, Answer(call, picks)) && DeletedWhenFinished(s)
    ensures DeletedWhenFinished(Next(c, s, Answer(call, picks)))
  {
    DeliverKeepsDeleted(s.queue, picks);
    IssueAdds(s.owner, picks);
    SameDeletedKeeps(s, Next(c, s, Answer(call, picks)));
  }

  lemma {:induction false} DisconnectKeepsDeleted(c: Config, s: State, jobs: seq<Job>, effective: set<Receipt>)
    requires DeletedWhenFinished(s)
    ensures DeletedWhenFinished(Next(c, s, Disconnect(jobs, effective)))
  {
    ReleaseKeepsDeleted(s, jobs, effective);
    ReleaseChangesQueueOnly(s, jobs, effective);
    SameDeletedKeeps(s, Next(c, s, Disconnect(jobs, effective)));
  }

  lemma {:induction false} KeepsDeleted(c: Config, s: State, step: Step)
    requires Enabled(s, step)
    requires Conserved(s) && ReceiptsInOrder(s) && DeletedWhenFinished(s)
    ensures DeletedWhenFinished(Next(c, s, step))
  {
    match step
    case Send(id) => SendKeepsDeleted(s, id);
    case Save(job, now, later, applied) => SaveKeepsDeleted(c, s, job, now, later, applied);
    case Answer(call, picks) => AnswerKeepsDeleted(c, s, call, picks);
    case Disconnect(jobs, effective) => DisconnectKeepsDeleted(c, s, jobs, effective);
    case _ => SameDeletedKeeps(s, Next(c, s, step));
  }

  // ---------- Whole runs ----------

  ghost predicate Inv(s: State) {
    RightNames(s) && Conserved(s) && ReceiptsInOrder(s) && DeletedWhenFinished(s)
  }

  lemma {:induction false} RunKeepsInv(c: Config, steps: seq<Step>)
    requires IsRun(c, steps)
    ensures Inv(Final(c, INITIAL, steps))
  {
    if steps == [] {
      assert Buffered(INITIAL.buffer, "") == [];
    } else {
      var before, last := steps[..|steps| - 1], steps[|steps| - 1];
      assert forall i :: 0 <= i < |before| ==> before[..i] == steps[..i] && before[i] == steps[i];
      RunKeepsInv(c, before);
      var s := Final(c, INITIAL, before);
      assert Enabled(s, last);
      KeepsNames(c, s, last);
      KeepsConserved(c, s, last);
      KeepsReceipts(c, s, last);
      KeepsDeleted(c, s, last);
    }
  }

  /**
   After any run every received job has been handed out once, or is held once in the buffer under its own
   name, or was released once when the repository disconnected: exactly one of the three.
   */
  lemma {:induction false} EachReceiptOnce(c: Config, steps: seq<Step>, k: nat)
    requires IsRun(c, steps) && k < |Final(c, INITIAL, steps).received|
    ensures var s := Final(c, INITIAL, steps);
            Accounted(s, s.received[k]) == 1
  {
    RunKeepsInv(c, steps);
    var s := Final(c, INITIAL, steps);
    DistinctOccurOnce(s.received, k);
    assert multiset(s.received)[s.received[k]] == Accounted(s, s.received[k]);
  }

  lemma {:induction false} DistinctOccurOnce(jobs: seq<Job>, k: nat)
    requires DistinctReceipts(jobs) && k < |jobs|
    ensures multiset(jobs)[jobs[k]] == 1
    decreases |jobs|
  {
    var before, last := jobs[..|jobs| - 1], jobs[|jobs| - 1];
    assert jobs == before + [last];
    if k < |before| {
      assert jobs[k].receipt != last.receipt;
      DistinctOccurOnce(before, k);
    } else {
      assert last !in before;
    }
  }

  /** Nothing is handed out or buffered that was not received, and every job handed out has the requested name. */
  lemma {:induction false} HandedRight(c: Config, steps: seq<Step>, i: nat)
    requires IsRun(c, steps) && i < |Final(c, INITIAL, steps).handed|
    ensures var s := Final(c, INITIAL, steps);
            s.handed[i].job.name == s.handed[i].name && s.handed[i].job in s.received
  {
    RunKeepsInv(c, steps);
    var s := Final(c, INITIAL, steps);
    var job := s.handed[i].job;
    assert HandedJobs(s.handed)[i] == job;
    assert job in multiset(HandedJobs(s.handed));
    assert multiset(s.received)[job] == Accounted(s, job) > 0;
  }

  /** A message is deleted exactly when a finished, not failed job handed out under one of its receipts was saved. */
  lemma {:induction false} DeletedExactly(c: Config, steps: seq<Step>, id: MessageId)
    requires IsRun(c, steps) && id in Final(c, INITIAL, steps).queue
    ensures Final(c, INITIAL, steps).queue[id] == Deleted <==> SavedFinished(c, steps, id)
  {
    RunKeepsInv(c, steps);
    AckedIsSaved(c, steps);
    var s := Final(c, INITIAL, steps);
    if SavedFinished(c, steps, id) {
      var i :| 0 <= i < |steps| && FinishedSave(steps[i]) && steps[i].job.receipt.value in s.owner
        && s.owner[steps[i].job.receipt.value] == id;
      assert steps[i].job.receipt.value in s.acked;
    }
    if s.queue[id] == Deleted {
      var receipt :| receipt in s.acked && receipt in s.owner && s.owner[receipt] == id;
      var i :| 0 <= i < |steps| && FinishedSave(steps[i]) && steps[i].job.receipt == Some(receipt);
    }
  }

  predicate FinishedSave(step: Step) {
    step.Save? && step.applied && Finished(step.job)
  }

  ghost predicate SavedFinished(c: Config, steps: seq<Step>, id: MessageId) {
    var s := Final(c, INITIAL, steps);
    exists i :: 0 <= i < |steps| && FinishedSave(steps[i]) && steps[i].job.receipt.value in s.owner
      && s.owner[steps[i].job.receipt.value] == id
  }

  /** The acknowledged receipts are those of the finished jobs saved with effect. */
  lemma {:induction false} AckedIsSaved(c: Config, steps: seq<Step>)
    ensures forall i :: 0 <= i < |steps| && FinishedSave(steps[i]) ==>
      steps[i].job.receipt.value in Final(c, INITIAL, steps).acked
    ensures forall receipt :: receipt in Final(c, INITIAL, steps).acked ==>
      exists i :: 0 <= i < |steps| && FinishedSave(steps[i]) && steps[i].job.receipt == Some(receipt)
  {
    if steps != [] {
      var before, last := steps[..|steps| - 1], steps[|steps| - 1];
      AckedIsSaved(c, before);
      AckedByStep(c, Final(c, INITIAL, before), last);
      forall receipt | receipt in Final(c, INITIAL, steps).acked
        ensures exists i :: 0 <= i < |steps| && FinishedSave(steps[i]) && steps[i].job.receipt == Some(receipt)
      {
        if receipt in Final(c, INITIAL, before).acked {
          var i :| 0 <= i < |before| && FinishedSave(before[i]) && before[i].job.receipt == Some(receipt);
          assert steps[i] == before[i];
        } else {
          assert FinishedSave(steps[|steps| - 1]);
        }
      }
    }
  }

  lemma {:induction false} AckedByStep(c: Config, s: State, step: Step)
    ensures Next(c, s, step).acked == s.acked + if FinishedSave(step) then {step.job.receipt.value} else {}
  {
    if step.Save? {
      SaveDeletesFinished(c.visibilityTimeout, step.job, step.now, step.later);
    }
    if step.Disconnect? {
      ReleaseChangesQueueOnly(s, step.jobs, step.effective);
    }
  }

  /** A message none of whose receipts was ever handed out is still in the queue, visible or in flight. */
  lemma {:induction false} UnhandedRemains(c: Config, steps: seq<Step>, id: MessageId)
    requires IsRun(c, steps) && id in Final(c, INITIAL, steps).queue
    requires var s := Final(c, INITIAL, steps);
             forall receipt :: receipt in s.owner && s.owner[receipt] == id ==> !WasReceiptHanded(s, receipt)
    ensures Final(c, INITIAL, steps).queue[id] != Deleted
  {
    RunKeepsInv(c, steps);
  }

  /** No step loses a message. */
  lemma {:induction false} MessagesStay(c: Config, s: State, step: Step)
    requires Enabled(s, step)
    ensures s.queue.Keys <= Next(c, s, step).queue.Keys
  {
    match step
    case Answer(_, picks) => DeliverKeepsDeleted(s.queue, picks);
    case Disconnect(jobs, effective) => ReleaseKeepsDeleted(s, jobs, effective);
    case _ =>
  }

  // ---------- Which jobs are still held ----------

  /** The step ends the hold of `receipt` on its message: expiry, redelivery, deletion, or an effective release. */
  ghost predicate Ends(c: Config, s: State, step: Step, receipt: Receipt)
    requires receipt in s.owner
  {
    var id := s.owner[receipt];
    match step
    case Expire(other) => other == id
    case Answer(_, picks) => exists i :: 0 <= i < |picks| && picks[i].id == id
    case Save(job, now, later, applied) => applied && HasReceipt(job) && SaveEnds(c, s, job, now, later, receipt)
    case Unlock(job, applied) => applied && HasReceipt(job) && job.receipt.value == receipt
    case Disconnect(jobs, effective) => receipt in effective && HasJobUnder(jobs, receipt)
    case _ => false
  }

  /**
   A save deletes the message of a job that is done, under whichever receipt; it gives back the message of a locked
   job only when the configured timeout is not positive, and that of a retry only when it is due by the second
   reading of the clock.
   */
  ghost predicate SaveEnds(c: Config, s: State, job: Job, now: Time, later: Time, receipt: Receipt)
    requires receipt in s.owner && HasReceipt(job)
  {
    if IsDone(job) then job.receipt.value in s.owner && s.owner[job.receipt.value] == s.owner[receipt]
    else if job.receipt.value != receipt then false
    else if job.lockedAt.Some? then c.visibilityTimeout <= 0
    else job.nextRunAt.Some? && now < job.nextRunAt.value <= later
  }

  ghost predicate HasJobUnder(jobs: seq<Job>, receipt: Receipt) {
    exists i :: 0 <= i < |jobs| && HasReceipt(jobs[i]) && jobs[i].receipt.value == receipt
  }

  ghost predicate Holds(s: State, receipt: Receipt) {
    receipt in s.owner && s.owner[receipt] in s.queue && s.queue[s.owner[receipt]] == InFlight(receipt)
  }

  /** Messages in flight are in flight under receipts of their own, and only known messages have receipts. */
  ghost predicate FlightsOwned(s: State) {
    && (forall id :: id in s.queue && s.queue[id].InFlight? ==>
          s.queue[id].receipt in s.owner && s.owner[s.queue[id].receipt] == id)
    && (forall receipt :: receipt in s.owner ==> s.owner[receipt] in s.queue)
  }

  lemma {:induction false} DeliverAt(queue: map<MessageId, Delivery>, picks: seq<Pick>, id: MessageId)
    requires forall i :: 0 <= i < |picks| ==> picks[i].message.receipt.Some? && picks[i].id in queue
    requires forall i, j :: 0 <= i < j < |picks| ==> picks[i].id != picks[j].id
    ensures Deliver(queue, picks).Keys == queue.Keys
    ensures (forall i :: 0 <= i < |picks| ==> picks[i].id != id) && id in queue ==>
      Deliver(queue, picks)[id] == queue[id]
    ensures forall i :: 0 <= i < |picks| && picks[i].id == id ==>
      Deliver(queue, picks)[id] == InFlight(picks[i].message.receipt.value)
  {
    if picks != [] {
      DeliverAt(queue, picks[..|picks| - 1], id);
    }
  }

  lemma {:induction false} IssueAt(owner: map<Receipt, MessageId>, picks: seq<Pick>, i: nat)
    requires i < |picks| && picks[i].message.receipt.Some?
    requires forall i, j :: 0 <= i < j < |picks| ==> picks[i].message.receipt != picks[j].message.receipt
    ensures picks[i].message.receipt.value in Issue(owner, picks)
    ensures Issue(owner, picks)[picks[i].message.receipt.value] == picks[i].id
  {
    if i < |picks| - 1 {
      IssueAt(owner, picks[..|picks| - 1], i);
    }
  }

  lemma {:induction false} ObeyHolds(s: State, command: Command, receipt: Receipt)
    requires FlightsOwned(s) && receipt in s.owner
    ensures FlightsOwned(s.(queue := Obey(s, command)))
    ensures Holds(s.(queue := Obey(s, command)), receipt) <==>
      && Holds(s, receipt)
      && !(command.DeleteMessage? && command.receipt in s.owner && s.owner[command.receipt] == s.owner[receipt])
      && !(command.ChangeVisibility? && command.receipt == receipt && command.timeout <= 0)
  {
  }

  lemma {:induction false} ReleaseHolds(s: State, jobs: seq<Job>, effective: set<Receipt>, receipt: Receipt)
    requires FlightsOwned(s) && receipt in s.owner
    ensures FlightsOwned(ReleaseAll(s, jobs, effective))
    ensures ReleaseAll(s, jobs, effective).owner == s.owner
    ensures Holds(ReleaseAll(s, jobs, effective), receipt) <==>
      Holds(s, receipt) && !(receipt in effective && HasJobUnder(jobs, receipt))
  {
    if jobs != [] {
      var before, job := jobs[..|jobs| - 1], jobs[|jobs| - 1];
      ReleaseHolds(s, before, effective, receipt);
      assert HasJobUnder(jobs, receipt) <==>
        HasJobUnder(before, receipt) || (HasReceipt(job) && job.receipt.value == receipt) by {
        assert jobs == before + [job];
      }
      if HasReceipt(job) && job.receipt.value in effective {
        ObeyHolds(ReleaseAll(s, before, effective), ChangeVisibility(job.receipt.value, 0), receipt);
      }
    }
  }

  lemma {:induction false} AnswerHolds(c: Config, s: State, call: CallId, picks: seq<Pick>, receipt: Receipt)
    requires Enabled(s, Answer(call, picks)) && FlightsOwned(s) && receipt in s.owner
    ensures receipt in Next(c, s, Answer(call, picks)).owner
    ensures Holds(Next(c, s, Answer(call, picks)), receipt) <==>
      Holds(s, receipt) && !Ends(c, s, Answer(call, picks), receipt)
  {
    IssueAdds(s.owner, picks);
    DeliverAt(s.queue, picks, s.owner[receipt]);
  }

  lemma {:induction false} PickHolds(s: State, picks: seq<Pick>, i: nat)
    requires FreshPicks(s, picks) && i < |picks|
    ensures var receipt, id := picks[i].message.receipt.value, picks[i].id;
      && receipt in Issue(s.owner, picks) && Issue(s.owner, picks)[receipt] == id
      && id in Deliver(s.queue, picks) && Deliver(s.queue, picks)[id] == InFlight(receipt)
  {
    IssueAt(s.owner, picks, i);
    DeliverAt(s.queue, picks, picks[i].id);
  }

  lemma {:induction false} FlightIsOwned(s: State, picks: seq<Pick>, id: MessageId)
    requires FreshPicks(s, picks) && FlightsOwned(s)
    requires id in Deliver(s.queue, picks) && Deliver(s.queue, picks)[id].InFlight?
    ensures var receipt := Deliver(s.queue, picks)[id].receipt;
            receipt in Issue(s.owner, picks) && Issue(s.owner, picks)[receipt] == id
  {
    DeliverAt(s.queue, picks, id);
    if i :| 0 <= i < |picks| && picks[i].id == id {
      PickHolds(s, picks, i);
    } else {
      IssueAdds(s.owner, picks);
    }
  }

  lemma {:induction false} IssuedIsKnown(s: State, picks: seq<Pick>, receipt: Receipt)
    requires FreshPicks(s, picks) && FlightsOwned(s) && receipt in Issue(s.owner, picks)
    ensures var id := Issue(s.owner, picks)[receipt];
      && id in Deliver(s.queue, picks)
      && (receipt !in s.owner ==> Deliver(s.queue, picks)[id] == InFlight(receipt))
  {
    if receipt in s.owner {
      IssueAdds(s.owner, picks);
      DeliverAt(s.queue, picks, s.owner[receipt]);
    } else {
      IssuedByPick(s.owner, picks, receipt);
      var i :| 0 <= i < |picks| && picks[i].message.receipt == Some(receipt);
      PickHolds(s, picks, i);
    }
  }

  lemma {:induction false} AnswerOwnsFlights(c: Config, s: State, call: CallId, picks: seq<Pick>)
    requires Enabled(s, Answer(call, picks)) && FlightsOwned(s)
    ensures FlightsOwned(Next(c, s, Answer(call, picks)))
    ensures forall receipt :: receipt in Next(c, s, Answer(call, picks)).owner && receipt !in s.owner ==>
      Holds(Next(c, s, Answer(call, picks)), receipt)
  {
    hide Issue, Deliver, FreshPicks;
    var s' := Next(c, s, Answer(call, picks));
    forall id | id in s'.queue && s'.queue[id].InFlight?
      ensures s'.queue[id].receipt in s'.owner && s'.owner[s'.queue[id].receipt] == id
    {
      FlightIsOwned(s, picks, id);
    }
    forall receipt | receipt in s'.owner
      ensures s'.owner[receipt] in s'.queue && (receipt !in s.owner ==> Holds(s', receipt))
    {
      IssuedIsKnown(s, picks, receipt);
    }
  }

  lemma {:induction false} IssuedByPick(owner: map<Receipt, MessageId>, picks: seq<Pick>, receipt: Receipt)
    requires receipt in Issue(owner, picks) && receipt !in owner
    ensures exists i :: 0 <= i < |picks| && picks[i].message.receipt == Some(receipt)
  {
    if forall i :: 0 <= i < |picks| ==> picks[i].message.receipt != Some(receipt) {
      IssueKeeps(owner, picks, receipt);
    }
  }

  /** One step: flights stay owned, known receipts keep their hold unless the step ends it, and a new receipt holds. */
  lemma {:induction false} StepHolds(c: Config, s: State, step: Step, receipt: Receipt)
    requires Enabled(s, step) && FlightsOwned(s)
    ensures FlightsOwned(Next(c, s, step))
    ensures receipt in s.owner ==>
      && receipt in Next(c, s, step).owner
      && (Holds(Next(c, s, step), receipt) <==> Holds(s, receipt) && !Ends(c, s, step, receipt))
    ensures receipt !in s.owner && receipt in Next(c, s, step).owner ==> Holds(Next(c, s, step), receipt)
  {
    match step
    case Answer(call, picks) =>
      AnswerOwnsFlights(c, s, call, picks);
      if receipt in s.owner {
        AnswerHolds(c, s, call, picks, receipt);
      }
    case Save(job, now, later, applied) =>
      var command := SaveCommand(c.visibilityTimeout, job, now, later);
      if command.Some? && applied {
        ObeyOwnsFlights(s, command.value);
        if receipt in s.owner {
          ObeyHolds(s, command.value, receipt);
        }
      }
    case Unlock(job, applied) =>
      if HasReceipt(job) && applied {
        ObeyOwnsFlights(s, ChangeVisibility(job.receipt.value, 0));
        if receipt in s.owner {
          ObeyHolds(s, ChangeVisibility(job.receipt.value, 0), receipt);
        }
      }
    case Disconnect(jobs, effective) =>
      ReleaseOwnsFlights(s, jobs, effective);
      if receipt in s.owner {
        ReleaseHolds(s, jobs, effective, receipt);
      }
    case _ =>
  }

  lemma {:induction false} ObeyOwnsFlights(s: State, command: Command)
    requires FlightsOwned(s)
    ensures FlightsOwned(s.(queue := Obey(s, command)))
  {
  }

  lemma {:induction false} ReleaseOwnsFlights(s: State, jobs: seq<Job>, effective: set<Receipt>)
    requires FlightsOwned(s)
    ensures FlightsOwned(ReleaseAll(s, jobs, effective)) && ReleaseAll(s, jobs, effective).owner == s.owner
  {
    if jobs != [] {
      ReleaseOwnsFlights(s, jobs[..|jobs| - 1], effective);
    }
  }

  /** No step since the receipt was issued has ended its hold. */
  ghost predicate NeverEnded(c: Config, steps: seq<Step>, receipt: Receipt) {
    forall k :: 0 <= k < |steps| && receipt in Final(c, INITIAL, steps[..k]).owner ==>
      !Ends(c, Final(c, INITIAL, steps[..k]), steps[k], receipt)
  }

  lemma {:induction false} NeverEndedNext(c: Config, steps: seq<Step>, receipt: Receipt)
    requires steps != []
    ensures var before, last := steps[..|steps| - 1], steps[|steps| - 1];
            NeverEnded(c, steps, receipt) <==>
              && NeverEnded(c, before, receipt)
              && (receipt in Final(c, INITIAL, before).owner ==> !Ends(c, Final(c, INITIAL, before), last, receipt))
  {
    hide Ends, Final;
    var before := steps[..|steps| - 1];
    assert forall k :: 0 <= k <= |before| ==> before[..k] == steps[..k];
    assert forall k :: 0 <= k < |before| ==> before[k] == steps[k];
  }

  lemma {:induction false} RunPrefix(c: Config, steps: seq<Step>, k: nat)
    requires IsRun(c, steps) && k <= |steps|
    ensures IsRun(c, steps[..k])
  {
    assert forall i :: 0 <= i < k ==> steps[..k][..i] == steps[..i] && steps[..k][i] == steps[i];
  }

  /** A message is in flight under a receipt exactly when nothing has ended the receipt's hold since it was issued. */
  lemma {:induction false} HeldExactly(c: Config, steps: seq<Step>, receipt: Receipt)
    requires IsRun(c, steps)
    ensures FlightsOwned(Final(c, INITIAL, steps))
    ensures receipt in Final(c, INITIAL, steps).owner ==>
      (Holds(Final(c, INITIAL, steps), receipt) <==> NeverEnded(c, steps, receipt))
    ensures receipt !in Final(c, INITIAL, steps).owner ==> NeverEnded(c, steps, receipt)
  {
    if steps != [] {
      var before, last := steps[..|steps| - 1], steps[|steps| - 1];
      RunPrefix(c, steps, |steps| - 1);
      HeldExactly(c, before, receipt);
      assert Enabled(Final(c, INITIAL, before), last);
      StepHolds(c, Final(c, INITIAL, before), last, receipt);
      NeverEndedNext(c, steps, receipt);
    }
  }

  lemma {:induction false} BufferedIsReceived(s: State, job: Job)
    requires Conserved(s) && job in Buffered(s.buffer, job.name)
    ensures job in s.received
  {
    assert job in multiset(Buffered(s.buffer, job.name));
    assert multiset(s.received)[job] == Accounted(s, job) > 0;
  }

  /** A job taken from the buffer still holds its message exactly when nothing has ended its receipt's hold. */
  lemma {:induction false} TakenJobHoldsExactly(c: Config, steps: seq<Step>, call: CallId, name: string)
    requires IsRun(c, steps + [Ask(call, name)]) && Buffered(Final(c, INITIAL, steps).buffer, name) != []
    ensures var job := Buffered(Final(c, INITIAL, steps).buffer, name)[0];
            var asked := Final(c, INITIAL, steps + [Ask(call, name)]);
            && asked.handed == Final(c, INITIAL, steps).handed + [Handout(name, job)]
            && job.receipt.Some? && job.receipt.value in asked.owner
            && (Holds(asked, job.receipt.value) <==> NeverEnded(c, steps, job.receipt.value))
  {
    var all := steps + [Ask(call, name)];
    var s := Final(c, INITIAL, steps);
    var job := Buffered(s.buffer, name)[0];
    assert all[..|steps|] == steps;
    RunPrefix(c, all, |steps|);
    RunKeepsInv(c, steps);
    assert job.name == name && job in Buffered(s.buffer, name);
    BufferedIsReceived(s, job);
    HeldExactly(c, steps, job.receipt.value);
  }

  /** Unlocking a buffered job makes its message visible and leaves the job in the buffer, to be handed out. */
  lemma {:induction false} UnlockedJobIsHandedOut(c: Config, s: State, job: Job, call: CallId)
    requires HasReceipt(job) && Holds(s, job.receipt.value) && call !in s.calls
    requires Buffered(s.buffer, job.name) != [] && Buffered(s.buffer, job.name)[0] == job
    ensures var unlocked := Next(c, s, Unlock(job, true));
            var asked := Next(c, unlocked, Ask(call, job.name));
            && Enabled(unlocked, Ask(call, job.name))
            && asked.owner == s.owner && asked.queue == s.queue[s.owner[job.receipt.value] := Visible]
            && asked.handed == s.handed + [Handout(job.name, job)]
  {
  }

  // ---------- Receive order ----------

  /** For one name: the jobs that left, then the buffered ones, are the received ones. */
  ghost predicate InOrder(s: State, name: string) {
    Named(s.left, name) + Buffered(s.buffer, name) == Named(s.received, name)
  }

  lemma {:induction false} NamedConcat(a: seq<Job>, b: seq<Job>, name: string)
    ensures Named(a + b, name) == Named(a, name) + Named(b, name)
    decreases |b|
  {
    if b == [] {
      assert a + b == a;
    } else {
      var before, last := b[..|b| - 1], b[|b| - 1];
      NamedConcat(a, before, name);
      assert a + b == (a + before) + [last];
      NamedLast(a + before, last, name);
    }
  }

  lemma {:induction false} NamedLeft(left: seq<Job>, matched: Option<Job>, name: string)
    ensures Named(left + if matched.Some? then [matched.value] else [], name)
         == Named(left, name) + if matched.Some? && matched.value.name == name then [matched.value] else []
  {
    if matched.Some? {
      NamedLast(left, matched.value, name);
    } else {
      assert left + [] == left;
    }
  }

  lemma {:induction false} HeadMoves(handed: seq<Job>, queue: seq<Job>)
    requires queue != []
    ensures handed + [queue[0]] + queue[1..] == handed + queue
  {
  }

  /** What a completed call adds for one name, in the ledger and in the state. */
  lemma {:induction false} CompletedByName(s: State, call: CallId, asked: string, jobs: seq<Job>, name: string)
    ensures var s' := Finish(s, call, asked, jobs);
            var matched, rest := Matched(jobs, asked, name), Named(WithoutFirst(jobs, asked), name);
            && Named(s'.left, name) == Named(s.left, name) + matched
            && Buffered(s'.buffer, name) == Buffered(s.buffer, name) + rest
            && Named(s'.received, name) == Named(s.received, name) + (matched + rest)
  {
    NamedHasName(jobs, asked);
    NamedLeft(s.left, FirstNamed(jobs, asked), name);
    BufferAllByName(s.buffer, WithoutFirst(jobs, asked), name);
    NamedConcat(s.received, jobs, name);
    BatchByName(jobs, asked, name);
  }

  /** For one name, as many jobs left or are buffered as were received. */
  ghost predicate SameLength(s: State, name: string) {
    |Named(s.left, name)| + |Buffered(s.buffer, name)| == |Named(s.received, name)|
  }

  /** The step completes a call that brings a job of `name` while an older one is buffered. */
  ghost predicate Overtakes(c: Config, s: State, step: Step, name: string) {
    && step.Complete? && step.call in s.calls && s.calls[step.call].Answered? && s.calls[step.call].name == name
    && Buffered(s.buffer, name) != [] && Named(Delivered(c.dates, s.calls[step.call].batch, step.now), name) != []
  }

  lemma {:induction false} SameEnds(a: seq<Job>, b: seq<Job>, end: seq<Job>)
    requires |a| == |b|
    ensures a + end == b + end <==> a == b
  {
    assert (a + end)[..|a|] == a && (b + end)[..|b|] == b;
  }

  /** Inserting a new job before others breaks the order for good; adding at the end changes nothing. */
  lemma {:induction false} InsertedInOrder(handed: seq<Job>, buffered: seq<Job>, received: seq<Job>,
      matched: seq<Job>, rest: seq<Job>)
    requires |handed| + |buffered| == |received| && |matched| <= 1
    requires matched != [] ==> matched[0] !in received
    ensures handed + matched + (buffered + rest) == received + (matched + rest) <==>
      handed + buffered == received && (matched == [] || buffered == [])
  {
    var left, right := handed + matched + (buffered + rest), received + (matched + rest);
    if matched == [] || buffered == [] {
      assert left == handed + buffered + (matched + rest);
      SameEnds(handed + buffered, received, matched + rest);
    } else {
      assert left[|handed|] == matched[0] && right[|handed|] == received[|handed|];
    }
  }

  lemma {:induction false} NamedIn(jobs: seq<Job>, name: string, job: Job)
    requires job in Named(jobs, name)
    ensures job in jobs && job.name == name
  {
    if job !in Named(jobs[..|jobs| - 1], name) {
      assert job == jobs[|jobs| - 1];
    } else {
      NamedIn(jobs[..|jobs| - 1], name, job);
    }
  }

  /** A job of an answer that is still waiting has not been received before. */
  lemma {:induction false} ArrivingIsNew(c: Config, s: State, call: CallId, now: Time, job: Job)
    requires Enabled(s, Complete(call, now)) && Inv(s)
    requires job in Delivered(c.dates, s.calls[call].batch, now)
    ensures job !in s.received
  {
    var batch := s.calls[call].batch;
    assert BatchFresh(s, batch);
    DeliveredReceipts(c.dates, batch, now);
    assert ReceiptIn(job.receipt, batch);
  }

  lemma {:induction false} MatchedIsNew(c: Config, s: State, call: CallId, now: Time, name: string)
    requires Enabled(s, Complete(call, now)) && Inv(s)
    ensures var matched := Matched(Delivered(c.dates, s.calls[call].batch, now), s.calls[call].name, name);
            matched != [] ==> matched[0] !in Named(s.received, name)
  {
    hide Inv, Delivered, Named;
    var asked, jobs := s.calls[call].name, Delivered(c.dates, s.calls[call].batch, now);
    var matched := Matched(jobs, asked, name);
    if matched != [] && matched[0] in Named(s.received, name) {
      NamedIn(s.received, name, matched[0]);
      NamedIn(jobs, asked, matched[0]);
      ArrivingIsNew(c, s, call, now, matched[0]);
    }
  }

  lemma {:induction false} CompleteOrderExactly(c: Config, s: State, call: CallId, now: Time, name: string)
    requires Enabled(s, Complete(call, now)) && Inv(s) && SameLength(s, name)
    ensures SameLength(Next(c, s, Complete(call, now)), name)
    ensures InOrder(Next(c, s, Complete(call, now)), name) <==>
      InOrder(s, name) && !Overtakes(c, s, Complete(call, now), name)
  {
    var asked := s.calls[call].name;
    var jobs := Delivered(c.dates, s.calls[call].batch, now);
    var matched, rest := Matched(jobs, asked, name), Named(WithoutFirst(jobs, asked), name);
    var received := Named(s.received, name);
    assert Next(c, s, Complete(call, now)) == Finish(s, call, asked, jobs);
    CompletedByName(s, call, asked, jobs, name);
    MatchedIsNew(c, s, call, now, name);
    hide Inv, Named, WithoutFirst, Delivered, Enabled, BufferAll, FirstNamed;
    InsertedInOrder(Named(s.left, name), Buffered(s.buffer, name), received, matched, rest);
  }

  lemma {:induction false} AskKeepsLength(c: Config, s: State, call: CallId, asked: string, name: string)
    requires RightNames(s) && SameLength(s, name)
    ensures SameLength(Next(c, s, Ask(call, asked)), name)
    ensures InOrder(Next(c, s, Ask(call, asked)), name) <==> InOrder(s, name)
  {
    var queue := Buffered(s.buffer, asked);
    if queue != [] {
      assert asked in s.buffer && queue[0].name == asked;
      NamedLeft(s.left, Some(queue[0]), name);
      HeadMoves(Named(s.left, name), queue);
    }
  }

  lemma {:induction false} SameLedgerSameOrder(s: State, s': State, name: string)
    requires s'.buffer == s.buffer && s'.left == s.left && s'.received == s.received
    ensures SameLength(s', name) <==> SameLength(s, name)
    ensures InOrder(s', name) <==> InOrder(s, name)
  {
  }

  lemma {:induction false} NamedAll(jobs: seq<Job>, name: string)
    requires forall i :: 0 <= i < |jobs| ==> jobs[i].name == name
    ensures Named(jobs, name) == jobs
    ensures forall other :: other != name ==> Named(jobs, other) == []
  {
    if jobs != [] {
      NamedAll(jobs[..|jobs| - 1], name);
    }
  }

  lemma {:induction false} NamedInQueue(buffer: Buffer, queue: string, name: string)
    requires NamesMatch(buffer) && queue in buffer
    ensures Named(Buffered(buffer, queue), name) == if name == queue then Buffered(buffer, name) else []
  {
    NamedAll(buffer[queue], queue);
  }

  lemma {:induction false} InitNoRepeats(names: seq<string>)
    requires names != [] && NoRepeats(names)
    ensures var before, last := names[..|names| - 1], names[|names| - 1];
            && NoRepeats(before) && last !in before
            && forall name :: name in names <==> name in before || name == last
  {
    assert names == names[..|names| - 1] + [names[|names| - 1]];
  }

  /** Along the map, the jobs of one name are that name's queue. */
  lemma {:induction false} NamedAlong(buffer: Buffer, names: seq<string>, name: string)
    requires NamesMatch(buffer) && NoRepeats(names) && forall queue :: queue in names ==> queue in buffer
    ensures Named(Along(buffer, names), name) == if name in names then Buffered(buffer, name) else []
  {
    if names == [] {
      assert Along(buffer, names) == [];
    } else {
      hide Buffered, NamesMatch, NoRepeats, Named;
      var before, last := names[..|names| - 1], names[|names| - 1];
      InitNoRepeats(names);
      NamedAlong(buffer, before, name);
      NamedConcat(Along(buffer, before), Buffered(buffer, last), name);
      NamedInQueue(buffer, last, name);
    }
  }

  lemma {:induction false} DisconnectKeepsLength(c: Config, s: State, jobs: seq<Job>, effective: set<Receipt>,
      name: string)
    requires Enabled(s, Disconnect(jobs, effective)) && RightNames(s) && SameLength(s, name)
    ensures SameLength(Next(c, s, Disconnect(jobs, effective)), name)
    ensures InOrder(Next(c, s, Disconnect(jobs, effective)), name) <==> InOrder(s, name)
  {
    ReleaseChangesQueueOnly(s, jobs, effective);
    var names :| IsWalk(s.buffer, names) && jobs == Along(s.buffer, names);
    NamedAlong(s.buffer, names, name);
    NamedConcat(s.left, jobs, name);
    assert Named(s.left, name) + Buffered(s.buffer, name) + [] == Named(s.left, name) + Buffered(s.buffer, name);
  }

  /** One step keeps receive order exactly when it does not overtake; an order once broken stays broken. */
  lemma {:induction false} StepOrderExactly(c: Config, s: State, step: Step, name: string)
    requires Enabled(s, step) && Inv(s) && SameLength(s, name)
    ensures SameLength(Next(c, s, step), name)
    ensures InOrder(Next(c, s, step), name) <==> InOrder(s, name) && !Overtakes(c, s, step, name)
  {
    hide InOrder, SameLength, RightNames, Conserved, ReceiptsInOrder, ReleaseAll, Obey, SaveCommand;
    match step
    case Ask(call, asked) => AskKeepsLength(c, s, call, asked, name);
    case Complete(call, now) => CompleteOrderExactly(c, s, call, now, name);
    case Disconnect(jobs, effective) => DisconnectKeepsLength(c, s, jobs, effective, name);
    case _ => SameLedgerSameOrder(s, Next(c, s, step), name);
  }

  ghost predicate NoneOvertakes(c: Config, steps: seq<Step>, name: string) {
    forall k :: 0 <= k < |steps| ==> !Overtakes(c, Final(c, INITIAL, steps[..k]), steps[k], name)
  }

  ghost predicate NeverDisconnects(steps: seq<Step>) {
    forall k :: 0 <= k < |steps| ==> !steps[k].Disconnect?
  }

  lemma {:induction false} NothingInOrder(c: Config, name: string)
    ensures InOrder(INITIAL, name) && SameLength(INITIAL, name) && NoneOvertakes(c, [], name)
  {
  }

  lemma {:induction false} NoneOvertakesNext(c: Config, steps: seq<Step>, name: string)
    requires steps != []
    ensures var before, last := steps[..|steps| - 1], steps[|steps| - 1];
            NoneOvertakes(c, steps, name) <==>
            && NoneOvertakes(c, before, name)
            && !Overtakes(c, Final(c, INITIAL, before), last, name)
  {
    hide Overtakes, Final;
    var before := steps[..|steps| - 1];
    assert forall k :: 0 <= k <= |before| ==> before[..k] == steps[..k];
    assert forall k :: 0 <= k < |before| ==> before[k] == steps[k];
  }

  /**
   Over every run, the jobs of a name that were handed out or released, followed by those still buffered, are the
   received jobs of that name in receive order, exactly when no completing call overtook a buffered job.
   */
  lemma {:induction false} OrderExactly(c: Config, steps: seq<Step>, name: string)
    requires IsRun(c, steps)
    ensures SameLength(Final(c, INITIAL, steps), name)
    ensures InOrder(Final(c, INITIAL, steps), name) <==> NoneOvertakes(c, steps, name)
  {
    hide Overtakes, InOrder, SameLength, Enabled, Next, NoneOvertakes, Inv;
    if steps == [] {
      NothingInOrder(c, name);
    } else {
      var before, last := steps[..|steps| - 1], steps[|steps| - 1];
      RunPrefix(c, steps, |before|);
      OrderExactly(c, before, name);
      RunKeepsInv(c, before);
      assert Enabled(Final(c, INITIAL, before), last);
      StepOrderExactly(c, Final(c, INITIAL, before), last, name);
      NoneOvertakesNext(c, steps, name);
    }
  }

  /** `a` is `b` with some elements left out. */
  ghost predicate Subsequence<T>(a: seq<T>, b: seq<T>) {
    a == [] || (b != [] && (Subsequence(a, b[..|b| - 1])
                            || (a[|a| - 1] == b[|b| - 1] && Subsequence(a[..|a| - 1], b[..|b| - 1]))))
  }

  lemma {:induction false} SubsequenceMore<T>(a: seq<T>, b: seq<T>, more: seq<T>)
    requires Subsequence(a, b)
    ensures Subsequence(a, b + more)
  {
    if more == [] {
      assert b + more == b;
    } else {
      var n := |more| - 1;
      SubsequenceMore(a, b, more[..n]);
      assert (b + more)[..|b| + n] == b + more[..n];
    }
  }

  lemma {:induction false} SubsequenceBoth<T>(a: seq<T>, b: seq<T>, more: seq<T>)
    requires Subsequence(a, b)
    ensures Subsequence(a + more, b + more)
  {
    if more == [] {
      assert a + more == a && b + more == b;
    } else {
      var n := |more| - 1;
      SubsequenceBoth(a, b, more[..n]);
      assert (a + more)[..|a| + n] == a + more[..n] && (b + more)[..|b| + n] == b + more[..n];
    }
  }

  /** The jobs handed out for a name are some of those that left, in the same order; all, without a disconnect. */
  lemma {:induction false} HandedAmongLeft(c: Config, steps: seq<Step>, name: string)
    ensures var s := Final(c, INITIAL, steps);
            && Subsequence(Named(HandedJobs(s.handed), name), Named(s.left, name))
            && (NeverDisconnects(steps) ==> HandedJobs(s.handed) == s.left)
  {
    if steps != [] {
      var before, last := steps[..|steps| - 1], steps[|steps| - 1];
      HandedAmongLeft(c, before, name);
      assert NeverDisconnects(steps) ==> NeverDisconnects(before) && !last.Disconnect?;
      HandedByStep(c, Final(c, INITIAL, before), last, name);
    }
  }

  /** What a step adds to the jobs handed out, to those released, and to those that left. */
  lemma {:induction false} StepLeaves(c: Config, s: State, step: Step) returns (out: seq<Job>, released: seq<Job>)
    ensures HandedJobs(Next(c, s, step).handed) == HandedJobs(s.handed) + out
    ensures Next(c, s, step).left == s.left + out + released
    ensures !step.Disconnect? ==> released == []
  {
    out, released := [], [];
    match step
    case Ask(_, name) =>
      var queue := Buffered(s.buffer, name);
      if queue != [] {
        HandedExtend(s.handed, Handout(name, queue[0]));
        out := [queue[0]];
      }
    case Complete(call, now) =>
      if call in s.calls && s.calls[call].Answered? {
        var name := s.calls[call].name;
        var matched := FirstNamed(Delivered(c.dates, s.calls[call].batch, now), name);
        if matched.Some? {
          HandedExtend(s.handed, Handout(name, matched.value));
          out := [matched.value];
        }
      }
    case Disconnect(jobs, effective) =>
      ReleaseChangesQueueOnly(s, jobs, effective);
      released := jobs;
    case _ =>
  }

  lemma {:induction false} HandedByStep(c: Config, s: State, step: Step, name: string)
    requires Subsequence(Named(HandedJobs(s.handed), name), Named(s.left, name))
    ensures Subsequence(Named(HandedJobs(Next(c, s, step).handed), name), Named(Next(c, s, step).left, name))
    ensures HandedJobs(s.handed) == s.left && !step.Disconnect? ==>
      HandedJobs(Next(c, s, step).handed) == Next(c, s, step).left
  {
    hide Next, Named, Subsequence, HandedJobs;
    var out, released := StepLeaves(c, s, step);
    NamedConcat(HandedJobs(s.handed), out, name);
    NamedConcat(s.left, out, name);
    NamedConcat(s.left + out, released, name);
    SubsequenceBoth(Named(HandedJobs(s.handed), name), Named(s.left, name), Named(out, name));
    SubsequenceMore(Named(HandedJobs(s.handed) + out, name), Named(s.left + out, name), Named(released, name));
    assert released == [] ==> s.left + out + released == s.left + out;
  }

  /** So without overtaking, over every run, handed out followed by buffered keeps receive order. */
  lemma {:induction false} HandedInOrder(c: Config, steps: seq<Step>, name: string)
    requires IsRun(c, steps) && NoneOvertakes(c, steps, name)
    ensures var s := Final(c, INITIAL, steps);
            Subsequence(Named(HandedJobs(s.handed), name) + Buffered(s.buffer, name), Named(s.received, name))
  {
    hide Named, Subsequence, HandedJobs, Final, NoneOvertakes, IsRun;
    var s := Final(c, INITIAL, steps);
    OrderExactly(c, steps, name);
    HandedAmongLeft(c, steps, name);
    SubsequenceBoth(Named(HandedJobs(s.handed), name), Named(s.left, name), Buffered(s.buffer, name));
  }

  // ---------- Calls one at a time ----------

  /** No call starts while another is waiting. */
  ghost predicate OneAtATime(c: Config, steps: seq<Step>) {
    forall i :: 0 <= i < |steps| && steps[i].Ask? ==> Final(c, INITIAL, steps[..i]).calls == map[]
  }

  /** At most one call waits, and nothing is buffered for its name. */
  ghost predicate Quiet(s: State) {
    && (forall a, b :: a in s.calls && b in s.calls ==> a == b)
    && (forall call :: call in s.calls ==> Buffered(s.buffer, s.calls[call].name) == [])
  }

  lemma {:induction false} StepKeepsQuiet(c: Config, s: State, step: Step)
    requires Enabled(s, step) && Quiet(s) && (step.Ask? ==> s.calls == map[])
    ensures Quiet(Next(c, s, step))
  {
    if step.Complete? {
      assert Next(c, s, step).calls == map[];
    }
    if step.Disconnect? {
      ReleaseChangesQueueOnly(s, step.jobs, step.effective);
    }
  }

  lemma {:induction false} PrefixOneAtATime(c: Config, steps: seq<Step>, k: nat)
    requires OneAtATime(c, steps) && k <= |steps|
    ensures OneAtATime(c, steps[..k])
  {
    hide Final;
    assert forall i :: 0 <= i < k ==> steps[..k][..i] == steps[..i] && steps[..k][i] == steps[i];
  }

  lemma {:induction false} RunStaysQuiet(c: Config, steps: seq<Step>)
    requires IsRun(c, steps) && OneAtATime(c, steps)
    ensures Quiet(Final(c, INITIAL, steps))
  {
    if steps != [] {
      var n := |steps| - 1;
      RunPrefix(c, steps, n);
      PrefixOneAtATime(c, steps, n);
      RunStaysQuiet(c, steps[..n]);
      assert Enabled(Final(c, INITIAL, steps[..n]), steps[n]);
      assert steps[n].Ask? ==> Final(c, INITIAL, steps[..n]).calls == map[];
      StepKeepsQuiet(c, Final(c, INITIAL, steps[..n]), steps[n]);
      hide Quiet, Enabled, Next, OneAtATime, IsRun;
    }
  }

  lemma {:induction false} QuietDoesNotOvertake(c: Config, s: State, step: Step, name: string)
    requires Quiet(s)
    ensures !Overtakes(c, s, step, name)
  {
  }

  /** When calls run one at a time, no call overtakes: receive order is kept for every name. */
  lemma {:induction false} SequentialCallsKeepOrder(c: Config, steps: seq<Step>, name: string)
    requires IsRun(c, steps) && OneAtATime(c, steps)
    ensures InOrder(Final(c, INITIAL, steps), name)
  {
    hide Overtakes, InOrder, Quiet, Final, IsRun, OneAtATime, SameLength;
    forall k | 0 <= k < |steps| ensures !Overtakes(c, Final(c, INITIAL, steps[..k]), steps[k], name) {
      RunPrefix(c, steps, k);
      PrefixOneAtATime(c, steps, k);
      RunStaysQuiet(c, steps[..k]);
      QuietDoesNotOvertake(c, Final(c, INITIAL, steps[..k]), steps[k], name);
    }
    OrderExactly(c, steps, name);
  }

  // ---------- Two runs from the start ----------

  /** A message this backend would send for a job, delivered under a receipt. */
  function SentMessage(d: Dates, name: string, receipt: Receipt): Message {
    Message(Text(Some(Sent(d, Outgoing(Some("id"), name, None, None, None), 0, ""))), Some(receipt), None)
  }

  lemma {:induction false} SentIsJob(d: Dates, name: string, receipt: Receipt, now: Time)
    requires d.Lawful() && name != ""
    ensures var job := JobOf(d, SentMessage(d, name, receipt), now);
            job.Some? && job.value.name == name && job.value.receipt == Some(receipt)
  {
    SentComesBack(d, Outgoing(Some("id"), name, None, None, None), 0, "");
  }

  function Pair(c: Config): seq<Pick> {
    [Pick(0, SentMessage(c.dates, "a", "0")), Pick(1, SentMessage(c.dates, "a", "1"))]
  }

  function Third(c: Config): seq<Pick> {
    [Pick(2, SentMessage(c.dates, "a", "2"))]
  }

  lemma {:induction false} OneMoreStep(c: Config, steps: seq<Step>, step: Step)
    requires IsRun(c, steps) && Enabled(Final(c, INITIAL, steps), step)
    ensures IsRun(c, steps + [step]) && Final(c, INITIAL, steps + [step]) == Next(c, Final(c, INITIAL, steps), step)
  {
    var more := steps + [step];
    assert more[..|steps|] == steps;
    forall i | 0 <= i < |more| ensures Enabled(Final(c, INITIAL, more[..i]), more[i]) {
      if i < |steps| {
        assert more[..i] == steps[..i];
      }
    }
  }

  lemma {:induction false} ThreeSent(c: Config) returns (steps: seq<Step>)
    ensures IsRun(c, steps) && NeverDisconnects(steps)
    ensures Final(c, INITIAL, steps) == INITIAL.(queue := map[0 := Visible, 1 := Visible, 2 := Visible])
  {
    steps := [];
    assert IsRun(c, steps) && Final(c, INITIAL, steps) == INITIAL;
    hide IsRun, Final;
    OneMoreStep(c, steps, Send(0));
    steps := steps + [Send(0)];
    OneMoreStep(c, steps, Send(1));
    steps := steps + [Send(1)];
    OneMoreStep(c, steps, Send(2));
    steps := steps + [Send(2)];
  }

  /** Three messages are sent and two calls ask for their name. */
  lemma {:induction false} TwoAsk(c: Config) returns (steps: seq<Step>)
    ensures IsRun(c, steps) && NeverDisconnects(steps)
    ensures Final(c, INITIAL, steps) ==
      INITIAL.(calls := map[0 := Asking("a"), 1 := Asking("a")], queue := map[0 := Visible, 1 := Visible, 2 := Visible])
  {
    hide IsRun, Final;
    steps := ThreeSent(c);
    OneMoreStep(c, steps, Ask(0, "a"));
    steps := steps + [Ask(0, "a")];
    OneMoreStep(c, steps, Ask(1, "a"));
    steps := steps + [Ask(1, "a")];
  }

  lemma {:induction false} PickOne(pick: Pick, receipt: Receipt, queue: map<MessageId, Delivery>,
      owner: map<Receipt, MessageId>)
    requires pick.message.receipt == Some(receipt)
    ensures Deliver(queue, [pick]) == queue[pick.id := InFlight(receipt)]
    ensures Issue(owner, [pick]) == owner[receipt := pick.id]
  {
    assert [pick][..0] == [];
  }

  lemma {:induction false} PickTwo(first: Pick, second: Pick, a: Receipt, b: Receipt, queue: map<MessageId, Delivery>,
      owner: map<Receipt, MessageId>)
    requires first.message.receipt == Some(a) && second.message.receipt == Some(b)
    ensures Deliver(queue, [first, second]) == queue[first.id := InFlight(a)][second.id := InFlight(b)]
    ensures Issue(owner, [first, second]) == owner[a := first.id][b := second.id]
  {
    PickOne(first, a, queue, owner);
    assert [first, second][..1] == [first];
  }

  lemma {:induction false} DeliverPair(c: Config, queue: map<MessageId, Delivery>, owner: map<Receipt, MessageId>)
    ensures Deliver(queue, Pair(c)) == queue[0 := InFlight("0")][1 := InFlight("1")]
    ensures Issue(owner, Pair(c)) == owner["0" := 0]["1" := 1]
    ensures Deliver(queue, Third(c)) == queue[2 := InFlight("2")] && Issue(owner, Third(c)) == owner["2" := 2]
  {
    PickTwo(Pair(c)[0], Pair(c)[1], "0", "1", queue, owner);
    PickOne(Third(c)[0], "2", queue, owner);
  }

  lemma {:induction false} FreshPair(c: Config, s: State)
    requires s.owner == map[] && s.queue == map[0 := Visible, 1 := Visible, 2 := Visible]
    ensures FreshPicks(s, Pair(c))
  {
    assert "0"[0] == '0' && "1"[0] == '1';
  }

  lemma {:induction false} FreshThird(c: Config, s: State)
    requires s.owner == map["0" := 0, "1" := 1] && 2 in s.queue && s.queue[2] == Visible
    ensures FreshPicks(s, Third(c))
  {
    assert "0"[0] == '0' && "1"[0] == '1' && "2"[0] == '2';
  }

  /** The first is answered with two messages. */
  lemma {:induction false} OneAnswered(c: Config) returns (steps: seq<Step>)
    ensures IsRun(c, steps) && NeverDisconnects(steps)
    ensures Final(c, INITIAL, steps) == INITIAL.(
      calls := map[0 := Answered("a", Batch(Pair(c))), 1 := Asking("a")],
      queue := map[0 := InFlight("0"), 1 := InFlight("1"), 2 := Visible],
      owner := map["0" := 0, "1" := 1])
  {
    hide Pair, Deliver, Issue, FreshPicks, IsRun, Final;
    steps := TwoAsk(c);
    var s := Final(c, INITIAL, steps);
    DeliverPair(c, s.queue, s.owner);
    FreshPair(c, s);
    OneMoreStep(c, steps, Answer(0, Pair(c)));
    steps := steps + [Answer(0, Pair(c))];
  }

  /** The second is answered with the third. */
  lemma {:induction false} TwoAnswered(c: Config) returns (steps: seq<Step>)
    ensures IsRun(c, steps) && NeverDisconnects(steps)
    ensures Final(c, INITIAL, steps) == INITIAL.(
      calls := map[0 := Answered("a", Batch(Pair(c))), 1 := Answered("a", Batch(Third(c)))],
      queue := map[0 := InFlight("0"), 1 := InFlight("1"), 2 := InFlight("2")],
      owner := map["0" := 0, "1" := 1, "2" := 2])
  {
    hide Pair, Third, Deliver, Issue, FreshPicks, IsRun, Final;
    steps := OneAnswered(c);
    var s := Final(c, INITIAL, steps);
    DeliverPair(c, s.queue, s.owner);
    FreshThird(c, s);
    OneMoreStep(c, steps, Answer(1, Third(c)));
    steps := steps + [Answer(1, Third(c))];
  }

  lemma {:induction false} PairIsTwoJobs(c: Config, now: Time) returns (first: Job, second: Job)
    requires c.dates.Lawful()
    ensures Delivered(c.dates, Batch(Pair(c)), now) == [first, second]
    ensures first.name == second.name == "a" && second.receipt == Some("1")
  {
    var m0, m1 := SentMessage(c.dates, "a", "0"), SentMessage(c.dates, "a", "1");
    SentIsJob(c.dates, "a", "0", now);
    SentIsJob(c.dates, "a", "1", now);
    assert Batch(Pair(c)) == [m0] + [m1] && [] + [m0] == [m0];
    hide SentMessage, JobOf, Pair;
    DeliveredOne(c.dates, [], m0, now);
    DeliveredOne(c.dates, [m0], m1, now);
    first, second := JobOf(c.dates, m0, now).value, JobOf(c.dates, m1, now).value;
  }

  lemma {:induction false} ThirdIsOneJob(c: Config, now: Time) returns (job: Job)
    requires c.dates.Lawful()
    ensures Delivered(c.dates, Batch(Third(c)), now) == [job] && job.name == "a"
  {
    var m2 := SentMessage(c.dates, "a", "2");
    SentIsJob(c.dates, "a", "2", now);
    assert Batch(Third(c)) == [m2] && [] + [m2] == [m2];
    hide SentMessage, JobOf, Third;
    DeliveredOne(c.dates, [], m2, now);
    job := JobOf(c.dates, m2, now).value;
  }

  lemma {:induction false} NamedOne(job: Job)
    ensures Named([job], job.name) == [job]
  {
    assert [job][..0] == [];
  }

  lemma {:induction false} PairSplits(first: Job, second: Job)
    requires first.name == second.name
    ensures FirstNamed([first, second], first.name) == Some(first)
    ensures WithoutFirst([first, second], first.name) == [second]
    ensures Buffered(BufferAll(map[], [second]), second.name) == [second]
  {
    assert [first, second][..1] == [first] && [first][..0] == [];
    NamedOne(first);
    NamedOne(second);
    assert WithoutFirst([first], first.name) == [];
    BufferAllByName(map[], [second], second.name);
  }

  /** The first call completes: its first job is handed out, its second is buffered. */
  lemma {:induction false} OneBuffered(c: Config, now: Time) returns (steps: seq<Step>, job: Job)
    requires c.dates.Lawful()
    ensures IsRun(c, steps) && NeverDisconnects(steps)
    ensures var s := Final(c, INITIAL, steps);
      && s.calls == map[1 := Answered("a", Batch(Third(c)))] && |s.handed| == 1
      && Buffered(s.buffer, "a") == [job] && job.name == "a" && job.receipt == Some("1")
      && s.owner == map["0" := 0, "1" := 1, "2" := 2]
      && s.queue == map[0 := InFlight("0"), 1 := InFlight("1"), 2 := InFlight("2")]
  {
    hide Pair, Third, Delivered, IsRun, FirstNamed, WithoutFirst, BufferAll;
    steps := TwoAnswered(c);
    var s := Final(c, INITIAL, steps);
    var first;
    first, job := PairIsTwoJobs(c, now);
    PairSplits(first, job);
    OneMoreStep(c, steps, Complete(0, now));
    assert Next(c, s, Complete(0, now)) == Finish(s, 0, "a", [first, job]);
    steps := steps + [Complete(0, now)];
  }

  /** Receive order can break: the third message is handed out before the second. */
  lemma {:induction false} OrderCanBreak(c: Config, now: Time) returns (steps: seq<Step>)
    requires c.dates.Lawful()
    ensures IsRun(c, steps) && NeverDisconnects(steps) && !InOrder(Final(c, INITIAL, steps), "a")
  {
    hide Third, Delivered, IsRun, InOrder;
    var before, job := OneBuffered(c, now);
    var s := Final(c, INITIAL, before);
    OneMoreStep(c, before, Complete(1, now));
    steps := before + [Complete(1, now)];
    var third := ThirdIsOneJob(c, now);
    NamedOne(third);
    assert Overtakes(c, s, Complete(1, now), "a");
    assert steps[..|before|] == before && steps[|before|] == Complete(1, now);
    OrderExactly(c, steps, "a");
  }

  /** A job can be handed out while its message is visible to every other consumer: unlocking left it in the buffer. */
  lemma {:induction false} VisibleJobIsHandedOut(c: Config, now: Time) returns (steps: seq<Step>)
    requires c.dates.Lawful()
    ensures IsRun(c, steps)
    ensures var s := Final(c, INITIAL, steps);
      && |s.handed| == 2 && s.handed[1].job.receipt == Some("1")
      && "1" in s.owner && s.owner["1"] in s.queue && s.queue[s.owner["1"]] == Visible
  {
    var job;
    steps, job := OneBuffered(c, now);
    UnlockedJobIsHandedOut(c, Final(c, INITIAL, steps), job, 2);
    OneMoreStep(c, steps, Unlock(job, true));
    steps := steps + [Unlock(job, true)];
    OneMoreStep(c, steps, Ask(2, "a"));
    steps := steps + [Ask(2, "a")];
  }
}
