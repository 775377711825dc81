/**
 The client side of the SQS job repository: the buffer of jobs received for other names, and the
 commands the repository sends to the queue.
 */
module SqsRepository {
  import opened Wrappers
  import opened SeqFacts
  import opened OrderedSet
  import opened SqsCodec

  type Receipt = string

  /** A received body: missing or empty, or a text and what `JSON.parse` makes of it. */
  datatype Body = Empty | Text(parsed: Option<Json>)

  datatype Message = Message(body: Body, receipt: Option<Receipt>, receiveCount: Option<int>)

  datatype Job = Job(
    id: string, name: string, priority: Number, data: Option<Json>, failCount: int, receipt: Option<Receipt>,
    nextRunAt: Option<Time>, lockedAt: Option<Time>, lastFinishedAt: Option<Time>, failedAt: Option<Time>)

  datatype Command =
    | DeleteMessage(receipt: Receipt)
    | ChangeVisibility(receipt: Receipt, timeout: int)

  /** `meta?.receiptHandle` is there and not empty. */
  predicate HasReceipt(job: Job) {
    job.receipt.Some? && job.receipt.value != ""
  }

  lemma {:induction false} HasReceiptExactly(job: Job)
    ensures HasReceipt(job) <==> exists receipt :: job.receipt == Some(receipt) && |receipt| > 0
  {
    if HasReceipt(job) {
      assert job.receipt == Some(job.receipt.value) && |job.receipt.value| > 0;
    }
  }

  // ---------- Receiving ----------

  function TextField(fields: map<string, Json>, name: string): string {
    if name in fields && fields[name].Str? then fields[name].s else ""
  }

  function NumberField(fields: map<string, Json>, name: string): Number {
    if name in fields && fields[name].Num? then fields[name].n else NonFinite
  }

  /** `toJob` on a decoded message; nothing for a message that is empty or malformed. */
  function JobOf(d: Dates, m: Message, now: Time): Option<Job> {
    if m.body.Empty? then None else
      match Decode(d, m.body.parsed)
      case Err(_) => None
      case Ok(envelope) =>
        var receiveCount := if m.receiveCount.Some? then m.receiveCount.value else 1;
        Some(Job(TextField(envelope, "id"), TextField(envelope, "name"), NumberField(envelope, "priority"),
                 Field(envelope, "data"), if receiveCount - 1 > 0 then receiveCount - 1 else 0, m.receipt,
                 Some(now), Some(now), None, None))
  }

  /** A job that is handed on has an id, a name and a finite priority. */
  lemma {:induction false} JobsAreNamed(d: Dates, m: Message, now: Time)
    requires JobOf(d, m, now).Some?
    ensures var job := JobOf(d, m, now).value;
            job.id != "" && job.name != "" && job.priority.Finite? && job.receipt == m.receipt && job.failCount >= 0
  {
    var fields := m.body.parsed.value.fields;
    assert |"id"| < |"name"| < |"priority"| == |"queuedAt"| < |"scheduledAt"|;
    assert "priority"[0] == 'p' && "queuedAt"[0] == 'q';
  }

  /** What is received is the job that was sent: its own id if it has one, its data, a failure per earlier receipt. */
  lemma {:induction false} ReceivedIsSent(d: Dates, job: Outgoing, queuedAt: Time, freshId: string,
      receipt: Option<Receipt>, receiveCount: Option<int>, now: Time)
    requires d.Lawful() && IdOf(job, freshId) != "" && job.name != ""
    requires (job.priority.Some? ==> job.priority.value.Finite?) && (job.data.Some? ==> AllFinite(job.data.value))
    ensures var received := JobOf(d, Message(Text(Some(Sent(d, job, queuedAt, freshId))), receipt, receiveCount), now);
            && received.Some?
            && received.value.id == (if job.id.Some? && job.id.value != "" then job.id.value else freshId)
            && received.value.name == job.name
            && received.value.priority == (if job.priority.Some? then job.priority.value else Finite(0.0))
            && received.value.data == job.data
            && received.value.failCount
               == (if receiveCount.Some? && receiveCount.value > 1 then receiveCount.value - 1 else 0)
            && received.value.receipt == receipt
            && received.value.lockedAt == Some(now) && received.value.nextRunAt == Some(now)
            && received.value.lastFinishedAt == None && received.value.failedAt == None
  {
    SentComesBack(d, job, queuedAt, freshId);
    hide Decode, Sent;
  }

  /** The jobs of a batch, in receive order. */
  function Delivered(d: Dates, messages: seq<Message>, now: Time): seq<Job> {
    if messages == [] then [] else
      var before, last := messages[..|messages| - 1], messages[|messages| - 1];
      Delivered(d, before, now) + if JobOf(d, last, now).Some? then [JobOf(d, last, now).value] else []
  }

  /** One more message adds its job, or nothing when it is empty or malformed. */
  lemma {:induction false} DeliveredOne(d: Dates, messages: seq<Message>, message: Message, now: Time)
    ensures Delivered(d, messages + [message], now)
         == Delivered(d, messages, now) + match JobOf(d, message, now) { case Some(job) => [job] case None => [] }
  {
    assert (messages + [message])[..|messages|] == messages;
  }

  /** A message is skipped exactly when its body is missing, or is no envelope of this backend. */
  lemma {:induction false} SkippedExactly(d: Dates, m: Message, now: Time)
    ensures JobOf(d, m, now) == None <==>
      m.body.Empty? || m.body.parsed == None || !m.body.parsed.value.Obj? || !IsEnvelope(d, m.body.parsed.value.fields)
  {
    if m.body.Text? {
      DecodeExactly(d, m.body.parsed);
      hide Decode, IsEnvelope;
    }
  }

  // ---------- The buffer ----------

  type Buffer = map<string, seq<Job>>

  function Buffered(buffer: Buffer, name: string): seq<Job> {
    if name in buffer then buffer[name] else []
  }

  /** `bufferJob`. */
  function BufferJob(buffer: Buffer, job: Job): Buffer {
    buffer[job.name := Buffered(buffer, job.name) + [job]]
  }

  function BufferAll(buffer: Buffer, jobs: seq<Job>): Buffer {
    if jobs == [] then buffer else BufferJob(BufferAll(buffer, jobs[..|jobs| - 1]), jobs[|jobs| - 1])
  }

  function Named(jobs: seq<Job>, name: string): seq<Job> {
    if jobs == [] then [] else
      Named(jobs[..|jobs| - 1], name) + if jobs[|jobs| - 1].name == name then [jobs[|jobs| - 1]] else []
  }

  /** The job of a batch that is handed out for `name`. */
  function FirstNamed(jobs: seq<Job>, name: string): Option<Job> {
    if Named(jobs, name) == [] then None else Some(Named(jobs, name)[0])
  }

  /** The jobs of a batch that are buffered when `name` was asked for. */
  function WithoutFirst(jobs: seq<Job>, name: string): seq<Job> {
    if jobs == [] then [] else
      var before, last := jobs[..|jobs| - 1], jobs[|jobs| - 1];
      if last.name == name && Named(before, name) == [] then before else WithoutFirst(before, name) + [last]
  }

  /** Job `i` is the first of its name. */
  ghost predicate IsFirstNamed(jobs: seq<Job>, name: string, i: int) {
    0 <= i < |jobs| && jobs[i].name == name && forall j :: 0 <= j < i ==> jobs[j].name != name
  }

  lemma {:induction false} IsFirstInFront(jobs: seq<Job>, name: string, i: nat)
    requires IsFirstNamed(jobs, name, i)
    ensures forall j :: 0 <= j < i ==> jobs[..i][j].name != name
    ensures i < |jobs| - 1 ==> IsFirstNamed(jobs[..|jobs| - 1], name, i)
  {
  }

  /** The job handed out is the first of that name, and the others are the batch without it. */
  lemma {:induction false} FirstIsTakenOut(jobs: seq<Job>, name: string, i: nat)
    requires IsFirstNamed(jobs, name, i)
    ensures Named(jobs, name) != [] && Named(jobs, name)[0] == jobs[i]
    ensures WithoutFirst(jobs, name) == jobs[..i] + jobs[i + 1..]
  {
    hide Named, WithoutFirst, IsFirstNamed;
    var n := |jobs| - 1;
    assert i <= n && jobs[i].name == name by {
      assert IsFirstNamed(jobs, name, i);
      FirstIsThere(jobs, name, i);
    }
    assert jobs == jobs[..n] + [jobs[n]];
    IsFirstInFront(jobs, name, i);
    NamedLast(jobs[..n], jobs[n], name);
    WithoutLast(jobs[..n], jobs[n], name);
    if i < n {
      FirstIsTakenOut(jobs[..n], name, i);
      assert jobs[i + 1..] == jobs[..n][i + 1..] + [jobs[n]] && jobs[..n][..i] == jobs[..i];
    } else {
      NothingNamed(jobs[..n], name);
      assert jobs[i + 1..] == [];
    }
  }

  lemma {:induction false} FirstIsThere(jobs: seq<Job>, name: string, i: nat)
    requires IsFirstNamed(jobs, name, i)
    ensures i < |jobs| && jobs[i].name == name
  {
  }

  lemma {:induction false} NothingNamed(jobs: seq<Job>, name: string)
    requires forall i :: 0 <= i < |jobs| ==> jobs[i].name != name
    ensures Named(jobs, name) == [] && WithoutFirst(jobs, name) == jobs
  {
    if jobs == [] {
    } else {
      hide Named, WithoutFirst;
      var n := |jobs| - 1;
      NothingNamed(jobs[..n], name);
      assert jobs == jobs[..n] + [jobs[n]];
      NamedLast(jobs[..n], jobs[n], name);
      WithoutLast(jobs[..n], jobs[n], name);
    }
  }

  /** A batch without the name hands out nothing; otherwise the first job of that name is handed out. */
  lemma {:induction false} HandsOutTheFirst(jobs: seq<Job>, name: string)
    ensures FirstNamed(jobs, name) == None <==> forall i :: 0 <= i < |jobs| ==> jobs[i].name != name
    ensures forall i :: IsFirstNamed(jobs, name, i) ==>
      FirstNamed(jobs, name) == Some(jobs[i]) && WithoutFirst(jobs, name) == jobs[..i] + jobs[i + 1..]
  {
    hide Named, WithoutFirst;
    if forall i :: 0 <= i < |jobs| ==> jobs[i].name != name {
      NothingNamed(jobs, name);
    } else {
      var i := FirstOfName(jobs, name);
      FirstIsTakenOut(jobs, name, i);
    }
    forall i | IsFirstNamed(jobs, name, i)
      ensures FirstNamed(jobs, name) == Some(jobs[i]) && WithoutFirst(jobs, name) == jobs[..i] + jobs[i + 1..]
    {
      FirstIsTakenOut(jobs, name, i);
    }
  }

  lemma {:induction false} FirstOfName(jobs: seq<Job>, name: string) returns (i: nat)
    requires exists k :: 0 <= k < |jobs| && jobs[k].name == name
    ensures IsFirstNamed(jobs, name, i)
  {
    i := 0;
    while jobs[i].name != name
      invariant i < |jobs| && forall j :: 0 <= j < i ==> jobs[j].name != name
      decreases |jobs| - i
    {
      i := i + 1;
    }
  }

  lemma {:induction false} NoneNamedKeepsAll(jobs: seq<Job>, name: string)
    requires Named(jobs, name) == []
    ensures WithoutFirst(jobs, name) == jobs
  {
    if jobs != [] {
      NoneNamedKeepsAll(jobs[..|jobs| - 1], name);
    }
  }

  /** Buffering appends the jobs of each name to that name's queue, and to no other. */
  lemma {:induction false} BufferAllByName(buffer: Buffer, jobs: seq<Job>, name: string)
    ensures Buffered(BufferAll(buffer, jobs), name) == Buffered(buffer, name) + Named(jobs, name)
  {
    if jobs != [] {
      BufferAllByName(buffer, jobs[..|jobs| - 1], name);
    }
  }

  /** The job handed out, as the part of a batch that has `name`. */
  function Matched(jobs: seq<Job>, requested: string, name: string): seq<Job> {
    if name == requested && Named(jobs, requested) != [] then [Named(jobs, requested)[0]] else []
  }

  lemma {:induction false} NamedLast(jobs: seq<Job>, last: Job, name: string)
    ensures Named(jobs + [last], name) == Named(jobs, name) + if last.name == name then [last] else []
  {
    assert (jobs + [last])[..|jobs|] == jobs;
  }

  lemma {:induction false} WithoutLast(jobs: seq<Job>, last: Job, name: string)
    ensures WithoutFirst(jobs + [last], name)
         == if last.name == name && Named(jobs, name) == [] then jobs else WithoutFirst(jobs, name) + [last]
  {
    assert (jobs + [last])[..|jobs|] == jobs;
  }

  lemma {:induction false} MatchedLast(jobs: seq<Job>, last: Job, requested: string, name: string)
    ensures Matched(jobs + [last], requested, name)
         == if last.name == requested && Named(jobs, requested) == [] then (if name == requested then [last] else [])
            else Matched(jobs, requested, name)
  {
    NamedLast(jobs, last, requested);
    hide Named;
  }

  lemma {:induction false} BatchGrows(jobs: seq<Job>, last: Job, requested: string, name: string)
    requires Named(jobs, name) == Matched(jobs, requested, name) + Named(WithoutFirst(jobs, requested), name)
    ensures Named(jobs + [last], name)
         == Matched(jobs + [last], requested, name) + Named(WithoutFirst(jobs + [last], requested), name)
  {
    hide Named, WithoutFirst, Matched;
    var end := if last.name == name then [last] else [];
    NamedLast(jobs, last, name);
    WithoutLast(jobs, last, requested);
    MatchedLast(jobs, last, requested, name);
    if last.name == requested && Named(jobs, requested) == [] {
      if name == requested {
        NoneNamedKeepsAll(jobs, requested);
      }
      assert Named(jobs + [last], name) == Named(jobs, name) + end;
      assert name == requested ==> Named(jobs, name) == [] && end == [last];
    } else {
      NamedLast(WithoutFirst(jobs, requested), last, name);
      Assoc(Matched(jobs, requested, name), Named(WithoutFirst(jobs, requested), name), end);
    }
  }

  /** A batch is its first job of the requested name and the jobs that are buffered, name by name in order. */
  lemma {:induction false} BatchByName(jobs: seq<Job>, requested: string, name: string)
    ensures Named(jobs, name) == Matched(jobs, requested, name) + Named(WithoutFirst(jobs, requested), name)
  {
    if jobs == [] {
    } else {
      hide Named, WithoutFirst, Matched;
      BatchByName(jobs[..|jobs| - 1], requested, name);
      BatchGrows(jobs[..|jobs| - 1], jobs[|jobs| - 1], requested, name);
      assert jobs[..|jobs| - 1] + [jobs[|jobs| - 1]] == jobs;
    }
  }

  lemma {:induction false} NamedHasName(jobs: seq<Job>, name: string)
    ensures forall i :: 0 <= i < |Named(jobs, name)| ==> Named(jobs, name)[i].name == name
  {
    if jobs != [] {
      NamedHasName(jobs[..|jobs| - 1], name);
    }
  }

  /** How often a job occurs among those of its own name is how often it occurs at all. */
  lemma {:induction false} NamedKeepsCount(jobs: seq<Job>, job: Job)
    ensures multiset(Named(jobs, job.name))[job] == multiset(jobs)[job]
  {
    if jobs != [] {
      NamedKeepsCount(jobs[..|jobs| - 1], job);
      assert jobs == jobs[..|jobs| - 1] + [jobs[|jobs| - 1]];
    }
  }

  // ---------- Saving ----------

  function CeilingSeconds(milliseconds: int): int {
    -((-milliseconds) / 1000)
  }

  /** `saveJobState`; `later` is the second reading of the clock. */
  function SaveCommand(visibilityTimeout: int, job: Job, now: Time, later: Time): Option<Command> {
    if !HasReceipt(job) then None
    else if job.lastFinishedAt.Some? && job.failedAt.None? then Some(DeleteMessage(job.receipt.value))
    else if job.lockedAt.Some? then Some(ChangeVisibility(job.receipt.value, visibilityTimeout))
    else if job.nextRunAt.Some? && job.nextRunAt.value > now then
      var delay := CeilingSeconds(job.nextRunAt.value - later);
      Some(ChangeVisibility(job.receipt.value, if delay < 43200 then delay else 43200))
    else None
  }

  /** The job is done: it finished and did not fail. */
  predicate IsDone(job: Job) {
    job.lastFinishedAt.Some? && job.failedAt.None?
  }

  /** A save of a locked job that is not done extends its message's visibility timeout by the configured time. */
  lemma {:induction false} LockedSaveExtends(visibilityTimeout: int, job: Job, now: Time, later: Time)
    requires HasReceipt(job) && !IsDone(job) && job.lockedAt.Some?
    ensures SaveCommand(visibilityTimeout, job, now, later)
         == Some(ChangeVisibility(job.receipt.value, visibilityTimeout))
  {
  }

  /** A save sends nothing exactly without a receipt, or for a job that is neither done nor locked nor due later. */
  lemma {:induction false} SaveSendsNothingExactly(visibilityTimeout: int, job: Job, now: Time, later: Time)
    ensures SaveCommand(visibilityTimeout, job, now, later) == None <==>
      !HasReceipt(job) || (!IsDone(job) && job.lockedAt.None? && (job.nextRunAt.None? || job.nextRunAt.value <= now))
  {
  }

  /** A visibility change that a save sends gives the message back at once in two cases only. */
  lemma {:induction false} SaveReleasesExactly(visibilityTimeout: int, job: Job, now: Time, later: Time)
    ensures var command := SaveCommand(visibilityTimeout, job, now, later);
      command.Some? && command.value.ChangeVisibility? && command.value.timeout <= 0 <==>
      && HasReceipt(job) && !IsDone(job)
      && if job.lockedAt.Some? then visibilityTimeout <= 0
         else job.nextRunAt.Some? && now < job.nextRunAt.value <= later
  {
  }

  /** A save deletes exactly the message of a finished job that did not fail; it never touches another receipt. */
  lemma {:induction false} SaveDeletesFinished(visibilityTimeout: int, job: Job, now: Time, later: Time)
    ensures var command := SaveCommand(visibilityTimeout, job, now, later);
            && (command.Some? && command.value.DeleteMessage? <==>
                HasReceipt(job) && job.lastFinishedAt.Some? && job.failedAt.None?)
            && (command.Some? ==> Some(command.value.receipt) == job.receipt)
  {
  }

  /**
   A retry delay is the time left at the second reading of the clock, rounded up to whole seconds and at most
   twelve hours; it is positive exactly when the retry is still ahead then.
   */
  lemma {:induction false} RetryDelay(visibilityTimeout: int, job: Job, now: Time, later: Time)
    requires HasReceipt(job) && !(job.lastFinishedAt.Some? && job.failedAt.None?) && job.lockedAt.None?
    requires job.nextRunAt.Some? && job.nextRunAt.value > now && later >= now
    ensures var command, left := SaveCommand(visibilityTimeout, job, now, later), job.nextRunAt.value - later;
            && command.Some? && command.value.ChangeVisibility? && command.value.timeout <= 43200
            && (command.value.timeout > 0 <==> left > 0)
            && (command.value.timeout < 43200 ==> left <= command.value.timeout * 1000 < left + 1000)
            && (command.value.timeout == 43200 ==> left > 43199 * 1000)
  {
  }

  // ---------- The repository ----------

  class SqsJobRepository {
    const dates: Dates
    const visibilityTimeout: int
    var messageBuffer: Buffer

    constructor (dates: Dates, visibilityTimeout: int)
      ensures this.dates == dates && this.visibilityTimeout == visibilityTimeout && messageBuffer == map[]
    {
      this.dates, this.visibilityTimeout, messageBuffer := dates, visibilityTimeout, map[];
    }

    /** `getNextJobToRun` up to its `await`: a buffered job, if there is one. */
    method TakeBuffered(jobName: string) returns (job: Option<Job>)
      modifies this
      ensures var queue := old(Buffered(messageBuffer, jobName));
              if queue == [] then job == None && messageBuffer == old(messageBuffer)
              else job == Some(queue[0]) && messageBuffer == old(messageBuffer)[jobName := queue[1..]]
    {
      job := None;
      if jobName in messageBuffer && messageBuffer[jobName] != [] {
        job := Some(messageBuffer[jobName][0]);
        messageBuffer := messageBuffer[jobName := messageBuffer[jobName][1..]];
      }
    }

    /** `getNextJobToRun` after its `await`: the first matching job is handed out, the others are buffered. */
    method SortBatch(jobName: string, messages: seq<Message>, now: Time) returns (matchedJob: Option<Job>)
      modifies this
      ensures matchedJob == FirstNamed(Delivered(dates, messages, now), jobName)
      ensures messageBuffer == BufferAll(old(messageBuffer), WithoutFirst(Delivered(dates, messages, now), jobName))
    {
      matchedJob := None;
      ghost var jobs: seq<Job> := [];
      for i := 0 to |messages|
        invariant jobs == Delivered(dates, messages[..i], now)
        invariant matchedJob == FirstNamed(jobs, jobName)
        invariant messageBuffer == BufferAll(old(messageBuffer), WithoutFirst(jobs, jobName))
      {
        var message := messages[i];
        assert messages[..i + 1][..i] == messages[..i];
        if message.body.Empty? {
          continue;
        }
        var received := JobOf(dates, message, now);
        if received.Some? {
          var job := received.value;
          SortsOne(old(messageBuffer), jobs, job, jobName);
          jobs := jobs + [job];
          if job.name == jobName && matchedJob.None? {
            matchedJob := Some(job);
            continue;
          }
          messageBuffer := BufferJob(messageBuffer, job);
        }
      }
      assert messages[..|messages|] == messages;
    }

    /** A whole call that no other call interrupts. */
    method GetNextJobToRun(jobName: string, response: seq<Message>, now: Time) returns (job: Option<Job>)
      modifies this
      ensures var queue := old(Buffered(messageBuffer, jobName));
              queue != [] ==> job == Some(queue[0]) && messageBuffer == old(messageBuffer)[jobName := queue[1..]]
      ensures var jobs := Delivered(dates, response, now);
              old(Buffered(messageBuffer, jobName)) == [] ==>
                && job == FirstNamed(jobs, jobName)
                && messageBuffer == BufferAll(old(messageBuffer), WithoutFirst(jobs, jobName))
    {
      job := TakeBuffered(jobName);
      if job.None? {
        job := SortBatch(jobName, response, now);
      }
    }

    /** The inner loop of `unlockJobs`: one id, every queue of the buffer, walked in the order `names`. */
    method UnlockJob(names: seq<string>, id: string) returns (commands: seq<Command>)
      requires IsWalk(messageBuffer, names)
      ensures commands == Unlocks(messageBuffer, names, id)
    {
      commands := [];
      for i := 0 to |names|
        invariant commands == Unlocks(messageBuffer, names[..i], id)
      {
        var matched := FirstWithId(messageBuffer[names[i]], id);
        if matched.Some? && HasReceipt(matched.value) {
          commands := commands + [ChangeVisibility(matched.value.receipt.value, 0)];
        }
        assert names[..i + 1][..i] == names[..i];
      }
      assert names[..|names|] == names;
    }

    /** `unlockJobs`: per id and queue, the first such job is released; it stays in the buffer. */
    method UnlockJobs(names: seq<string>, ids: seq<string>) returns (commands: seq<Command>)
      requires IsWalk(messageBuffer, names)
      ensures commands == UnlocksAll(messageBuffer, names, ids)
    {
      commands := [];
      for i := 0 to |ids|
        invariant commands == UnlocksAll(messageBuffer, names, ids[..i])
      {
        var more := UnlockJob(names, ids[i]);
        assert ids[..i + 1][..i] == ids[..i];
        commands := commands + more;
      }
      assert ids[..|ids|] == ids;
    }

    /** `disconnect`: one release per buffered job that has a receipt, along the map. */
    method Disconnect(names: seq<string>) returns (commands: seq<Command>)
      requires IsWalk(messageBuffer, names)
      modifies this
      ensures messageBuffer == map[]
      ensures commands == Releases(Along(old(messageBuffer), names))
    {
      commands := [];
      ghost var released: seq<Job> := [];
      for i := 0 to |names|
        invariant messageBuffer == old(messageBuffer)
        invariant released == Along(messageBuffer, names[..i]) && commands == Releases(released)
      {
        var buffered := messageBuffer[names[i]];
        ghost var earlier := released;
        for k := 0 to |buffered|
          invariant released == earlier + buffered[..k]
          invariant commands == Releases(released) && messageBuffer == old(messageBuffer)
        {
          var job := buffered[k];
          ReleasesExtend(released, job);
          TakeNext(earlier, buffered, k);
          released := released + [job];
          if HasReceipt(job) {
            commands := commands + [ChangeVisibility(job.receipt.value, 0)];
          }
        }
        assert buffered[..|buffered|] == buffered;
        assert names[..i + 1][..i] == names[..i];
      }
      assert names[..|names|] == names;
      messageBuffer := map[];
    }
  }

  lemma {:induction false} SortsOne(buffer: Buffer, jobs: seq<Job>, job: Job, name: string)
    ensures FirstNamed(jobs + [job], name)
         == if FirstNamed(jobs, name).None? && job.name == name then Some(job) else FirstNamed(jobs, name)
    ensures BufferAll(buffer, WithoutFirst(jobs + [job], name))
         == if FirstNamed(jobs, name).None? && job.name == name then BufferAll(buffer, WithoutFirst(jobs, name))
            else BufferJob(BufferAll(buffer, WithoutFirst(jobs, name)), job)
  {
    assert (jobs + [job])[..|jobs|] == jobs;
    var rest := WithoutFirst(jobs, name);
    assert (rest + [job])[..|rest|] == rest;
    if FirstNamed(jobs, name).None? {
      NoneNamedKeepsAll(jobs, name);
    }
  }

  // ---------- Releasing ----------

  function FirstWithId(jobs: seq<Job>, id: string): (job: Option<Job>)
    ensures job.Some? ==> job.value in jobs && job.value.id == id
    ensures job.None? ==> forall other :: other in jobs ==> other.id != id
  {
    if jobs == [] then None else if jobs[0].id == id then Some(jobs[0]) else FirstWithId(jobs[1..], id)
  }

  /** `names` lists the keys of the map, each once, in the order in which it is walked. */
  ghost predicate IsWalk(buffer: Buffer, names: seq<string>) {
    NoRepeats(names) && forall name :: name in names <==> name in buffer
  }

  function UnlocksFirst(jobs: seq<Job>, id: string): seq<Command> {
    var job := FirstWithId(jobs, id);
    if job.Some? && HasReceipt(job.value) then [ChangeVisibility(job.value.receipt.value, 0)] else []
  }

  function Unlocks(buffer: Buffer, names: seq<string>, id: string): seq<Command> {
    if names == [] then [] else
      Unlocks(buffer, names[..|names| - 1], id) + UnlocksFirst(Buffered(buffer, names[|names| - 1]), id)
  }

  function UnlocksAll(buffer: Buffer, names: seq<string>, ids: seq<string>): seq<Command> {
    if ids == [] then [] else
      UnlocksAll(buffer, names, ids[..|ids| - 1]) + Unlocks(buffer, names, ids[|ids| - 1])
  }

  /** The first job of the queue with that id has a receipt, and the command releases it. */
  ghost predicate ReleasesFirst(jobs: seq<Job>, id: string, command: Command) {
    exists i :: 0 <= i < |jobs| && jobs[i].id == id && (forall j :: 0 <= j < i ==> jobs[j].id != id)
      && HasReceipt(jobs[i]) && command == ChangeVisibility(jobs[i].receipt.value, 0)
  }

  lemma {:induction false} FirstWithIdIsFirst(jobs: seq<Job>, id: string) returns (i: nat)
    requires FirstWithId(jobs, id).Some?
    ensures i < |jobs| && jobs[i] == FirstWithId(jobs, id).value && jobs[i].id == id
    ensures forall j :: 0 <= j < i ==> jobs[j].id != id
  {
    if jobs[0].id == id {
      i := 0;
    } else {
      var rest := FirstWithIdIsFirst(jobs[1..], id);
      i := rest + 1;
      assert forall j :: 0 < j < i ==> jobs[j] == jobs[1..][j - 1];
    }
  }

  lemma {:induction false} UnlocksFirstReleases(jobs: seq<Job>, id: string, command: Command)
    ensures command in UnlocksFirst(jobs, id) <==> ReleasesFirst(jobs, id, command)
  {
    if FirstWithId(jobs, id).Some? {
      var i := FirstWithIdIsFirst(jobs, id);
      forall k | 0 <= k < |jobs| && jobs[k].id == id && (forall j :: 0 <= j < k ==> jobs[j].id != id) ensures k == i {
      }
    }
  }

  /** The command releases the first job with that id in one of the queues. */
  ghost predicate ReleasesId(buffer: Buffer, names: seq<string>, id: string, command: Command) {
    exists name :: name in names && ReleasesFirst(Buffered(buffer, name), id, command)
  }

  lemma {:induction false} UnlocksOfId(buffer: Buffer, names: seq<string>, id: string, command: Command)
    ensures command in Unlocks(buffer, names, id) <==> ReleasesId(buffer, names, id, command)
  {
    if names != [] {
      var before, last := names[..|names| - 1], names[|names| - 1];
      UnlocksOfId(buffer, before, id, command);
      UnlocksFirstReleases(Buffered(buffer, last), id, command);
      assert names == before + [last];
    }
  }

  /** A release is sent exactly for the first job with a given id in some queue, if it has a receipt. */
  lemma {:induction false} UnlocksExactly(buffer: Buffer, names: seq<string>, ids: seq<string>, command: Command)
    ensures command in UnlocksAll(buffer, names, ids) <==>
      exists id :: id in ids && ReleasesId(buffer, names, id, command)
  {
    hide ReleasesId, Unlocks;
    if ids != [] {
      var before, last := ids[..|ids| - 1], ids[|ids| - 1];
      UnlocksExactly(buffer, names, before, command);
      UnlocksOfId(buffer, names, last, command);
      assert ids == before + [last];
    }
  }

  /** The buffered jobs along the map. */
  function Along(buffer: Buffer, names: seq<string>): seq<Job> {
    if names == [] then [] else Along(buffer, names[..|names| - 1]) + Buffered(buffer, names[|names| - 1])
  }

  /** Every job is buffered under its own name. */
  ghost predicate NamesMatch(buffer: Buffer) {
    forall name, i :: name in buffer && 0 <= i < |buffer[name]| ==> buffer[name][i].name == name
  }

  /** The commands that release jobs: one each, except for jobs without a receipt. */
  function Releases(jobs: seq<Job>): seq<Command> {
    if jobs == [] then [] else
      var job := jobs[|jobs| - 1];
      Releases(jobs[..|jobs| - 1]) + if HasReceipt(job) then [ChangeVisibility(job.receipt.value, 0)] else []
  }

  lemma {:induction false} ReleasesExtend(jobs: seq<Job>, job: Job)
    ensures Releases(jobs + [job])
         == Releases(jobs) + if HasReceipt(job) then [ChangeVisibility(job.receipt.value, 0)] else []
  {
    assert (jobs + [job])[..|jobs|] == jobs;
  }

  lemma {:induction false} OnlyOwnName(buffer: Buffer, name: string, job: Job)
    requires NamesMatch(buffer) && name in buffer && job.name != name
    ensures multiset(buffer[name])[job] == 0
  {
    assert forall i :: 0 <= i < |buffer[name]| ==> buffer[name][i].name == name;
  }

  lemma {:induction false} BufferedElsewhere(buffer: Buffer, name: string, job: Job)
    requires NamesMatch(buffer) && name in buffer
    ensures multiset(Buffered(buffer, name))[job] ==
      if job.name == name then multiset(Buffered(buffer, job.name))[job] else 0
  {
    if job.name != name {
      OnlyOwnName(buffer, name, job);
    }
  }

  lemma {:induction false} AlongCounts(buffer: Buffer, names: seq<string>, job: Job)
    requires NamesMatch(buffer) && NoRepeats(names) && forall name :: name in names ==> name in buffer
    ensures multiset(Along(buffer, names))[job]
         == if job.name in names then multiset(Buffered(buffer, job.name))[job] else 0
  {
    if names != [] {
      var before, last := names[..|names| - 1], names[|names| - 1];
      AlongCounts(buffer, before, job);
      assert names == before + [last];
      BufferedElsewhere(buffer, last, job);
      assert last !in before;
      hide Buffered, NamesMatch, NoRepeats;
    }
  }

  /** Along the map, every buffered job is met exactly as often as it is buffered. */
  lemma {:induction false} WalkMeetsAll(buffer: Buffer, names: seq<string>, job: Job)
    requires NamesMatch(buffer) && IsWalk(buffer, names)
    ensures multiset(Along(buffer, names))[job] == multiset(Buffered(buffer, job.name))[job]
  {
    AlongCounts(buffer, names, job);
  }

  /** The walk meets the queues in the order of the names. */
  lemma {:induction false} AlongInOrder(buffer: Buffer, a: seq<string>, b: seq<string>)
    ensures Along(buffer, a + b) == Along(buffer, a) + Along(buffer, b)
    ensures |a| == 1 ==> Along(buffer, a) == Buffered(buffer, a[0])
    decreases |b|
  {
    if b == [] {
      assert a + b == a;
    } else {
      var n := |b| - 1;
      AlongInOrder(buffer, a, b[..n]);
      assert (a + b)[..|a| + n] == a + b[..n];
      Assoc(Along(buffer, a), Along(buffer, b[..n]), Buffered(buffer, b[n]));
    }
  }

  /** Releases go out id by id. */
  lemma {:induction false} UnlocksInOrder(buffer: Buffer, names: seq<string>, a: seq<string>, b: seq<string>)
    ensures UnlocksAll(buffer, names, a + b) == UnlocksAll(buffer, names, a) + UnlocksAll(buffer, names, b)
    decreases |b|
  {
    if b == [] {
      assert a + b == a;
    } else {
      hide Unlocks;
      var n := |b| - 1;
      UnlocksInOrder(buffer, names, a, b[..n]);
      assert (a + b)[..|a| + n] == a + b[..n];
      Assoc(UnlocksAll(buffer, names, a), UnlocksAll(buffer, names, b[..n]), Unlocks(buffer, names, b[n]));
    }
  }
}
