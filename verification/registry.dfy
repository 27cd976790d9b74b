/** The tester's job registry: the package variables `job1`, `job2`, `job3`,
    `jobArray`, `FQA` and `triggerCount`, updated by the `/createJobs` and
    `/triggerJobN` handlers. The behaviour is kept as written: all three
    stored filters are built from job 1, and job 3's `toBlock` is never set. */
module Registry {
  import opened GoTypes
  import opened Hex
  import opened Topic
  import opened Filter
  import opened AddressNormalisation

  /** `Jobs`: a job identifier, the oracle contract addresses to watch and a
      block range. */
  datatype Job = Job(jobId: GoString, ocaAddress: seq<GoString>, fromBlock: GoString, toBlock: GoString)

  /** The zero value of `Jobs`. */
  const NoJob := Job([], [], [], [])

  const Job1IdText: string := "6ba16cd62b8b4114b95449e35800cba0"
  const Job1Id := Ascii(Job1IdText)
  const Job2IdText: string := "e21f90744a6f4b44bc00086d30717777"
  const Job2Id := Ascii(Job2IdText)
  const Job3IdText: string := "09d1e90f9eaa48ad8042f9e255b21984"
  const Job3Id := Ascii(Job3IdText)
  const Job1OracleText: string := "0x291D46AE055Dd592B8CC7DdBF232cc206CEfa975"
  const Job1Oracle := Ascii(Job1OracleText)
  const Job2OracleText: string := "0x58d4BbD5F75c87ECa079a31d3Bd6d50e737aC0f5"
  const Job2Oracle := Ascii(Job2OracleText)
  const Job3OracleText: string := "0xa778D1539b8fb94662Fae3D33b9d06D48E75021C"
  const Job3Oracle := Ascii(Job3OracleText)
  const StartBlockText: string := "0x35e8e0c"
  const StartBlock := Ascii(StartBlockText)
  const Job3StartBlockText: string := "0x35e96FC"
  const Job3StartBlock := Ascii(Job3StartBlockText)
  const LatestText: string := "latest"
  const Latest := Ascii(LatestText)

  /** The jobs as `handleCreateJobs` leaves them: `RegisteredJob(0)` is job1,
      and so on. Job 3 keeps the empty `toBlock` it started with. */
  function RegisteredJob(k: nat): Job
    requires k < 3
  {
    if k == 0 then Job(Job1Id, [Job1Oracle], StartBlock, Latest)
    else if k == 1 then Job(Job2Id, [Job2Oracle], StartBlock, Latest)
    else Job(Job3Id, [Job3Oracle], Job3StartBlock, [])
  }

  /** The filter `handleCreateJobs` builds from a job: `createEvmFilterQuery`
      on its identifier and addresses, then its block range. */
  function JobFilter(eventTopic: Hash, job: Job): FilterQuery
  {
    EvmFilterQuery(eventTopic, job.jobId, job.ocaAddress).(fromBlock := job.fromBlock, toBlock := job.toBlock)
  }

  /** The filter every `handleCreateJobs` call stores, three times: the one
      built from job 1. */
  function Job1Filter(eventTopic: Hash): FilterQuery
  {
    JobFilter(eventTopic, RegisteredJob(0))
  }

  /** What a trigger hands to the poller: the stored filter and the trigger
      number, which the poller only logs. */
  datatype PollStart = PollStart(filter: FilterQuery, triggerNumber: int)

  /** A log of the `OracleRequest` event for job `j`: the event signature,
      then the job's topic word. */
  predicate IsJobLog(eventTopic: Hash, j: nat, logTopics: seq<Hash>)
    requires j < 3
  {
    |logTopics| >= 2 && logTopics[0] == eventTopic && logTopics[1] == StringToBytes32(RegisteredJob(j).jobId)
  }

  /** The three job identifiers are 32 bytes long and differ already in
      their first byte. */
  lemma JobIdsDistinct(j: nat, k: nat)
    requires j < 3 && k < 3
    ensures |RegisteredJob(j).jobId| == 32
    ensures RegisteredJob(j).jobId == RegisteredJob(k).jobId <==> j == k
  {
    var a, b := RegisteredJob(j).jobId, RegisteredJob(k).jobId;
    if j != k {
      assert a[0] != b[0];
    }
  }

  /** Hence the three jobs have three different topic words. */
  lemma JobTopicsDistinct(j: nat, k: nat)
    requires j < 3 && k < 3
    ensures StringToBytes32(RegisteredJob(j).jobId) == StringToBytes32(RegisteredJob(k).jobId) <==> j == k
  {
    JobIdsDistinct(j, k);
    JobIdsDistinct(k, j);
    ShortIdentifiersInjective(RegisteredJob(j).jobId, RegisteredJob(k).jobId);
  }

  /** As written, the stored filter matches the logs of job 1 and of no other
      job: whichever trigger is hit, job 2's and job 3's requests are never
      seen. */
  lemma OnlyJob1IsPolled(eventTopic: Hash, j: nat, logTopics: seq<Hash>)
    requires j < 3 && IsJobLog(eventTopic, j, logTopics)
    ensures TopicsMatch(Job1Filter(eventTopic).topics, logTopics) <==> j == 0
  {
    EvmFilterMatchesJobLogs(eventTopic, Job1Id, [Job1Oracle], logTopics);
    JobTopicsDistinct(j, 0);
  }

  /** The job table the handler evidently means to build: job 3 polls up to
      `latest` like the other two. */
  function IntendedJob(k: nat): (job: Job)
    requires k < 3
    ensures job.toBlock == Latest
    ensures job == RegisteredJob(k).(toBlock := Latest)
  {
    if k < 2 then RegisteredJob(k) else RegisteredJob(2).(toBlock := Latest)
  }

  /** The filter the handler evidently means to build from a job: the
      corrected builder on its identifier and addresses, then its block range. */
  function IntendedJobFilter(eventTopic: Hash, job: Job): (q: FilterQuery)
    ensures |q.addresses| == |job.ocaAddress|
    ensures forall i | 0 <= i < |job.ocaAddress| :: q.addresses[i] == HexToAddress(NormaliseXdcPrefix(job.ocaAddress[i]))
    ensures q.fromBlock == job.fromBlock && q.toBlock == job.toBlock
    ensures q.topics == JobFilter(eventTopic, job).topics
  {
    EvmFilterQueryIntendedShape(eventTopic, job.jobId, job.ocaAddress);
    EvmFilterQueryIntended(eventTopic, job.jobId, job.ocaAddress).(fromBlock := job.fromBlock, toBlock := job.toBlock)
  }

  /** The filters the handler evidently means to store: filter `k` built from
      job `k`. */
  function IntendedFilters(eventTopic: Hash): (fs: seq<FilterQuery>)
    ensures |fs| == 3
  {
    seq(3, k requires 0 <= k < 3 => IntendedJobFilter(eventTopic, IntendedJob(k)))
  }

  /** With the intended filters, trigger `k` polls job `k`'s oracle contract
      over job `k`'s block range. */
  lemma IntendedFilterOfJob(eventTopic: Hash, k: nat)
    requires k < 3
    ensures IntendedFilters(eventTopic)[k].addresses == [HexToAddress(NormaliseXdcPrefix(RegisteredJob(k).ocaAddress[0]))]
    ensures IntendedFilters(eventTopic)[k].fromBlock == RegisteredJob(k).fromBlock
    ensures IntendedFilters(eventTopic)[k].toBlock == Latest
  {
    var job := IntendedJob(k);
    assert IntendedFilters(eventTopic)[k] == IntendedJobFilter(eventTopic, job);
    assert job.ocaAddress == RegisteredJob(k).ocaAddress && |job.ocaAddress| == 1;
    SingleAddressIntendedFilter(eventTopic, job);
  }

  /** A job with one address gets a corrected filter with that one address. */
  lemma SingleAddressIntendedFilter(eventTopic: Hash, job: Job)
    requires |job.ocaAddress| == 1
    ensures IntendedJobFilter(eventTopic, job).addresses == [HexToAddress(NormaliseXdcPrefix(job.ocaAddress[0]))]
  {
  }

  /** With the intended filters, trigger `k` matches job `k`'s logs and no
      other job's. */
  lemma IntendedTriggerPollsOwnJob(eventTopic: Hash, k: nat, j: nat, logTopics: seq<Hash>)
    requires k < 3 && j < 3 && IsJobLog(eventTopic, j, logTopics)
    ensures TopicsMatch(IntendedFilters(eventTopic)[k].topics, logTopics) <==> j == k
  {
    var job := IntendedJob(k);
    EvmFilterQueryIntendedShape(eventTopic, job.jobId, job.ocaAddress);
    assert IntendedFilters(eventTopic)[k].topics == EvmFilterQuery(eventTopic, job.jobId, job.ocaAddress).topics;
    EvmFilterMatchesJobLogs(eventTopic, job.jobId, job.ocaAddress, logTopics);
    JobTopicsDistinct(j, k);
  }

  /** The jobs `jobArray` holds after `n` calls of `/createJobs`. */
  function CreatedJobs(n: nat): seq<Job>
  {
    if n == 0 then [] else CreatedJobs(n - 1) + [RegisteredJob(0), RegisteredJob(1), RegisteredJob(2)]
  }

  /** The filters `FQA` holds after `n` calls of `/createJobs`. */
  function StoredFilters(eventTopic: Hash, n: nat): seq<FilterQuery>
  {
    if n == 0 then []
    else StoredFilters(eventTopic, n - 1) + [Job1Filter(eventTopic), Job1Filter(eventTopic), Job1Filter(eventTopic)]
  }

  /** After `n` calls `jobArray` holds `3n` jobs, job `i` being the
      registered job `i % 3`. */
  lemma {:induction false} CreatedJobsLayout(n: nat)
    ensures |CreatedJobs(n)| == 3 * n
    ensures forall i | 0 <= i < 3 * n :: CreatedJobs(n)[i] == RegisteredJob(i % 3)
  {
    if n > 0 {
      CreatedJobsLayout(n - 1);
      var m := 3 * (n - 1);
      assert m % 3 == 0 && (m + 1) % 3 == 1 && (m + 2) % 3 == 2;
    }
  }

  /** After `n` calls `FQA` holds `3n` filters, every one of them job 1's. */
  lemma {:induction false} StoredFiltersLayout(eventTopic: Hash, n: nat)
    ensures |StoredFilters(eventTopic, n)| == 3 * n
    ensures forall i | 0 <= i < 3 * n :: StoredFilters(eventTopic, n)[i] == Job1Filter(eventTopic)
  {
    if n > 0 {
      StoredFiltersLayout(eventTopic, n - 1);
    }
  }

  class JobRegistry {
    /** The `OracleRequest` event-signature hash; the same on every call, so
        it is fixed once for the registry. */
    const eventTopic: Hash
    var job1: Job
    var job2: Job
    var job3: Job
    var jobArray: seq<Job>
    var fqa: seq<FilterQuery>
    var triggerCount: int
    /** How many `/createJobs` calls have been handled. */
    ghost var rounds: nat

    /** Jobs are zero until the first `/createJobs`, and fixed after it; every
        call adds the three jobs and three filters, all three job 1's. */
    ghost predicate Valid()
      reads this
    {
      && jobArray == CreatedJobs(rounds)
      && fqa == StoredFilters(eventTopic, rounds)
      && (if rounds == 0 then job1 == NoJob && job2 == NoJob && job3 == NoJob
          else job1 == RegisteredJob(0) && job2 == RegisteredJob(1) && job3 == RegisteredJob(2))
      && triggerCount >= 0
    }

    /** The package variables at process start: zero values. */
    constructor (eventTopic: Hash)
      ensures Valid()
      ensures this.eventTopic == eventTopic
      ensures job1 == job2 == job3 == NoJob
      ensures jobArray == [] && fqa == [] && triggerCount == 0
    {
      this.eventTopic := eventTopic;
      job1, job2, job3 := NoJob, NoJob, NoJob;
      jobArray, fqa := [], [];
      triggerCount := 0;
      rounds := 0;
    }

    /** `handleCreateJobs`, assignment by assignment. */
    method HandleCreateJobs()
      requires Valid()
      modifies this
      ensures Valid()
      ensures job1 == RegisteredJob(0) && job2 == RegisteredJob(1) && job3 == RegisteredJob(2)
      ensures job3.toBlock == old(job3.toBlock)
      ensures rounds == old(rounds) + 1
      ensures jobArray == old(jobArray) + [job1, job2, job3]
      ensures fqa == old(fqa) + [Job1Filter(eventTopic), Job1Filter(eventTopic), Job1Filter(eventTopic)]
      ensures triggerCount == old(triggerCount)
    {
      // The package variables are read and written through locals; nothing
      // else runs between these statements.
      var j1, j2, j3 := job1, job2, job3;
      j1 := j1.(jobId := Job1Id);
      j1 := j1.(ocaAddress := [Job1Oracle]);
      j1 := j1.(fromBlock := StartBlock);
      j1 := j1.(toBlock := Latest);
      var q1 := CreateEvmFilterQuery(eventTopic, j1.jobId, j1.ocaAddress);
      q1 := q1.(fromBlock := j1.fromBlock);
      q1 := q1.(toBlock := j1.toBlock);

      j2 := j2.(jobId := Job2Id);
      j2 := j2.(ocaAddress := [Job2Oracle]);
      j2 := j2.(fromBlock := StartBlock);
      j2 := j2.(toBlock := Latest);
      var q2 := CreateEvmFilterQuery(eventTopic, j1.jobId, j1.ocaAddress);
      q2 := q2.(fromBlock := j1.fromBlock);
      q2 := q2.(toBlock := j1.toBlock);

      j3 := j3.(jobId := Job3Id);
      j3 := j3.(ocaAddress := [Job3Oracle]);
      j3 := j3.(fromBlock := Job3StartBlock);
      j1 := j1.(toBlock := Latest);
      var q3 := CreateEvmFilterQuery(eventTopic, j1.jobId, j1.ocaAddress);
      q3 := q3.(fromBlock := j1.fromBlock);
      q3 := q3.(toBlock := j1.toBlock);

      assert j1 == RegisteredJob(0);
      assert j2 == RegisteredJob(1);
      assert j3 == RegisteredJob(2);
      assert q1 == JobFilter(eventTopic, j1);
      assert q2 == JobFilter(eventTopic, j1);
      assert q3 == JobFilter(eventTopic, j1);

      job1, job2, job3 := j1, j2, j3;
      jobArray := jobArray + [j1, j2, j3];
      fqa := fqa + [q1, q2, q3];
      rounds := rounds + 1;
    }

    /** `triggerJob1`: count the trigger, then hand `FQA[0]` and the new count
        to a poller. Before any `/createJobs` the index is out of range: Go
        panics after the count has gone up, and the HTTP server recovers the
        handler, so no poll starts (`None`). */
    method TriggerJob1() returns (poll: Option<PollStart>)
      requires Valid()
      modifies this`triggerCount
      ensures Valid()
      ensures triggerCount == old(triggerCount) + 1
      ensures poll == if |fqa| > 0 then Some(PollStart(fqa[0], triggerCount)) else None
      ensures poll.Some? ==> poll.value.filter == Job1Filter(eventTopic)
    {
      StoredFiltersLayout(eventTopic, rounds);
      triggerCount := triggerCount + 1;
      if |fqa| > 0 {
        poll := Some(PollStart(fqa[0], triggerCount));
      } else {
        poll := None;
      }
    }

    /** `triggerJob2`: as `triggerJob1` with `FQA[1]`, which is job 1's filter too. */
    method TriggerJob2() returns (poll: Option<PollStart>)
      requires Valid()
      modifies this`triggerCount
      ensures Valid()
      ensures triggerCount == old(triggerCount) + 1
      ensures poll == if |fqa| > 1 then Some(PollStart(fqa[1], triggerCount)) else None
      ensures poll.Some? ==> poll.value.filter == Job1Filter(eventTopic)
    {
      StoredFiltersLayout(eventTopic, rounds);
      triggerCount := triggerCount + 1;
      if |fqa| > 1 {
        poll := Some(PollStart(fqa[1], triggerCount));
      } else {
        poll := None;
      }
    }

    /** `triggerJob3`: as `triggerJob1` with `FQA[2]`, which is job 1's filter too. */
    method TriggerJob3() returns (poll: Option<PollStart>)
      requires Valid()
      modifies this`triggerCount
      ensures Valid()
      ensures triggerCount == old(triggerCount) + 1
      ensures poll == if |fqa| > 2 then Some(PollStart(fqa[2], triggerCount)) else None
      ensures poll.Some? ==> poll.value.filter == Job1Filter(eventTopic)
    {
      StoredFiltersLayout(eventTopic, rounds);
      triggerCount := triggerCount + 1;
      if |fqa| > 2 {
        poll := Some(PollStart(fqa[2], triggerCount));
      } else {
        poll := None;
      }
    }
  }
}
