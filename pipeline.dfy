/** The import pipeline of commands/import.go run sequentially: the header
    and the error-file header (lines 142-152), sendJobs (195-216), the body
    of worker (227-249), sumErrors (262-275) and their wiring in execute
    (121-193), with one worker and the channels replaced by sequences. */
module Import {
  import opened Wrappers
  import opened Model
  import opened RowParser

  // ------------------------------------------------------------- the reader

  /** One call of csv.Reader.Read: a record, or an error other than io.EOF
      together with the fields read before it (csv.Reader returns both).
      The end of the sequence of calls stands for io.EOF. */
  datatype ReadResult =
    | Record(fields: seq<string>)
    | ReadError(fields: seq<string>, message: string)

  /** How many calls return a record before the first error or the end of input. */
  function RecordRun(input: seq<ReadResult>): (n: nat)
    ensures n <= |input|
    ensures forall k | 0 <= k < n :: input[k].Record?
    ensures n < |input| ==> input[n].ReadError?
  {
    if input == [] || input[0].ReadError? then 0 else 1 + RecordRun(input[1..])
  }

  /** The jobs sendJobs pushes for a given sequence of input. */
  function DispatchedJobs(input: seq<ReadResult>): seq<Job>
  {
    var n := RecordRun(input);
    seq(n, k requires 0 <= k < n => Job(input[k].fields, k + 1))
  }

  /** The header: the fields of the first call. When that call fails,
      execute logs the error and goes on with the fields read before it;
      when the input is empty (io.EOF at once) there are none. */
  function Header(input: seq<ReadResult>): (h: seq<string>)
    ensures input == [] ==> h == []
    ensures input != [] && input[0].Record? ==> h == input[0].fields
    ensures input != [] && input[0].ReadError? ==> h == input[0].fields
  {
    if input == [] then [] else input[0].fields
  }

  /** The calls sendJobs makes, after the header has been consumed: with the
      header's call in front they are all the calls, in order. */
  function DataReads(input: seq<ReadResult>): (data: seq<ReadResult>)
    ensures input == [] ==> data == []
    ensures input != [] ==> input == [input[0]] + data
  {
    if input == [] then [] else input[1..]
  }

  /** A header line that fails to parse still gives its leading fields to
      the error file's header. */
  lemma PartialHeaderKept(first: seq<string>, message: string, rest: seq<ReadResult>)
    ensures ErrFileHeader(Header([ReadError(first, message)] + rest)) == first + ["error"]
    ensures ErrFileHeader(Header([])) == ["error"]
  {
  }

  /** The header of the error file: the input header and one more column. */
  function ErrFileHeader(headers: seq<string>): (h: seq<string>)
    ensures |h| == |headers| + 1 && h[..|headers|] == headers && h[|headers|] == "error"
  {
    headers + ["error"]
  }

  /** sendJobs: every record read becomes a job numbered 1, 2, 3, ... in read
      order; the first read error, or the end of input, stops the dispatch,
      and nothing read after it is sent. */
  method SendJobs(input: seq<ReadResult>) returns (jobs: seq<Job>)
    ensures |jobs| <= |input|
    ensures forall k | 0 <= k < |jobs| :: input[k].Record? && jobs[k] == Job(input[k].fields, k + 1)
    ensures |jobs| < |input| ==> input[|jobs|].ReadError?
  {
    jobs := [];
    var rowNum := 0;
    var i := 0;
    while i < |input|
      invariant i <= |input|
      invariant rowNum == i == |jobs|
      invariant forall k | 0 <= k < i :: input[k].Record? && jobs[k] == Job(input[k].fields, k + 1)
    {
      var r := input[i];
      if r.ReadError? {
        break;
      }
      rowNum := rowNum + 1;
      jobs := jobs + [Job(r.fields, rowNum)];
      i := i + 1;
    }
  }

  /** What SendJobs promises is exactly the jobs of DispatchedJobs. */
  lemma DispatchedJobsUnique(input: seq<ReadResult>, jobs: seq<Job>)
    requires |jobs| <= |input|
    requires forall k | 0 <= k < |jobs| :: input[k].Record? && jobs[k] == Job(input[k].fields, k + 1)
    requires |jobs| < |input| ==> input[|jobs|].ReadError?
    ensures jobs == DispatchedJobs(input)
  {
    var n := RecordRun(input);
    assert n == |jobs|;
  }

  // ------------------------------------------------------------- the worker

  /** InsertEmployee, the store's indexing call: None when the document is
      stored, Some(message) when the store refuses it. */
  type Store = Employee -> Option<string>

  /** What became of one job: stored, or one error row. */
  datatype Outcome = Stored(employee: Employee) | Rejected(errRow: ErrRow)

  predicate Parseable(jobs: seq<Job>)
  {
    forall k | 0 <= k < |jobs| :: |jobs[k].row| >= 9
  }

  /** One turn of the worker loop: parse the row; on failure report it and
      do not call the store; otherwise insert, and report the store's
      refusal if there is one. An error row carries the job and its number. */
  function Process(job: Job, p: Parsers, insert: Store): (o: Outcome)
    requires |job.row| >= 9
    ensures o.Rejected? ==> o.errRow.rowId == job.rowNum && o.errRow.job == job
    ensures ParseRow(job.row, p).Failure? ==> o == Rejected(ErrRow(job.rowNum, ParseRow(job.row, p).error, job))
    ensures ParseRow(job.row, p).Success? ==>
      var e := ParseRow(job.row, p).value;
      o == (if insert(e).None? then Stored(e) else Rejected(ErrRow(job.rowNum, InsertFailed(insert(e).value), job)))
  {
    match ParseRow(job.row, p)
    case Failure(err) => Rejected(ErrRow(job.rowNum, err, job))
    case Success(employee) =>
      match insert(employee)
      case Some(message) => Rejected(ErrRow(job.rowNum, InsertFailed(message), job))
      case None => Stored(employee)
  }

  /** A row that fails to parse never reaches the store: its outcome is the
      same whatever the store would have answered. */
  lemma ParseFailureSkipsStore(job: Job, p: Parsers, insert1: Store, insert2: Store)
    requires |job.row| >= 9 && ParseRow(job.row, p).Failure?
    ensures Process(job, p, insert1) == Process(job, p, insert2)
    ensures Process(job, p, insert1).errRow.error.InsertFailed? == false
  {
    ParseRowNeverInsertFailed(job.row, p);
  }

  lemma ParseRowNeverInsertFailed(row: seq<string>, p: Parsers)
    requires |row| >= 9 && ParseRow(row, p).Failure?
    ensures !ParseRow(row, p).error.InsertFailed?
  {
    ParseRowFirstFailure(row, p);
  }

  /** Process as a function value, for mapping over the jobs. */
  function ProcessFn(p: Parsers, insert: Store): (f: Job --> Outcome)
    ensures forall j: Job | |j.row| >= 9 :: f.requires(j) && f(j) == Process(j, p, insert)
  {
    (j: Job) requires |j.row| >= 9 => Process(j, p, insert)
  }

  /** The outcome of each job, in job order. */
  function Outcomes(jobs: seq<Job>, p: Parsers, insert: Store): (os: seq<Outcome>)
    requires Parseable(jobs)
    ensures |os| == |jobs|
    ensures forall k | 0 <= k < |os| :: os[k] == Process(jobs[k], p, insert)
  {
    MapSeq(ProcessFn(p, insert), jobs)
  }

  /** The error rows among the outcomes, in order. */
  function Rejections(os: seq<Outcome>): seq<ErrRow>
  {
    if os == [] then []
    else Rejections(os[..|os| - 1]) + (if os[|os| - 1].Rejected? then [os[|os| - 1].errRow] else [])
  }

  /** The stored employees among the outcomes, in order. */
  function Stores(os: seq<Outcome>): seq<Employee>
  {
    if os == [] then []
    else Stores(os[..|os| - 1]) + (if os[|os| - 1].Stored? then [os[|os| - 1].employee] else [])
  }

  /** The body of worker, run over all jobs: it pushes exactly the error
      rows, and stores exactly the employees, that the jobs' outcomes call for. */
  method Worker(jobs: seq<Job>, p: Parsers, insert: Store) returns (stored: seq<Employee>, errs: seq<ErrRow>)
    requires Parseable(jobs)
    ensures stored == Stores(Outcomes(jobs, p, insert))
    ensures errs == Rejections(Outcomes(jobs, p, insert))
  {
    ghost var os := Outcomes(jobs, p, insert);
    stored, errs := [], [];
    var i := 0;
    while i < |jobs|
      invariant i <= |jobs|
      invariant stored == Stores(os[..i])
      invariant errs == Rejections(os[..i])
    {
      var j := jobs[i];
      assert os[..i + 1][..i] == os[..i];
      assert os[i] == Process(j, p, insert);
      var parsed := ParseRow(j.row, p);
      if parsed.Failure? {
        errs := errs + [ErrRow(j.rowNum, parsed.error, j)];
      } else {
        var reply := insert(parsed.value);
        if reply.Some? {
          errs := errs + [ErrRow(j.rowNum, InsertFailed(reply.value), j)];
        } else {
          stored := stored + [parsed.value];
        }
      }
      i := i + 1;
    }
    assert os[..i] == os;
  }

  /** Every job has exactly one outcome: stored employees and error rows
      together are as many as the jobs. */
  lemma {:induction false} OutcomesCount(os: seq<Outcome>)
    ensures |Stores(os)| + |Rejections(os)| == |os|
  {
    if os != [] {
      OutcomesCount(os[..|os| - 1]);
    }
  }

  /** Outcomes numbered 1, 2, 3, ... in order (as the jobs of sendJobs are). */
  ghost predicate NumberedInOrder(os: seq<Outcome>)
  {
    forall k | 0 <= k < |os| :: os[k].Rejected? ==> os[k].errRow.rowId == k + 1
  }

  /** Each error row is the outcome of the job whose number it carries. */
  lemma {:induction false} RejectionsFromOutcomes(os: seq<Outcome>)
    requires NumberedInOrder(os)
    ensures forall e | e in Rejections(os) :: 1 <= e.rowId <= |os| && os[e.rowId - 1] == Rejected(e)
  {
    if os != [] {
      var init := os[..|os| - 1];
      assert NumberedInOrder(init) by {
        forall k | 0 <= k < |init| ensures init[k].Rejected? ==> init[k].errRow.rowId == k + 1 {
          assert init[k] == os[k];
        }
      }
      RejectionsFromOutcomes(init);
      forall e | e in Rejections(os) ensures 1 <= e.rowId <= |os| && os[e.rowId - 1] == Rejected(e) {
        if e in Rejections(init) {
          assert init[e.rowId - 1] == os[e.rowId - 1];
        }
      }
    }
  }

  /** Every error row comes from one of the outcomes. */
  lemma {:induction false} RejectionsMembers(os: seq<Outcome>)
    ensures forall e | e in Rejections(os) :: Rejected(e) in os
  {
    if os != [] {
      var init := os[..|os| - 1];
      RejectionsMembers(init);
      forall e | e in Rejections(os) ensures Rejected(e) in os {
        if e in Rejections(init) {
          var k :| 0 <= k < |init| && init[k] == Rejected(e);
          assert os[k] == init[k];
        }
      }
    }
  }

  /** The error rows of parseable jobs carry rows wide enough for the error file. */
  lemma RejectedRowsWide(jobs: seq<Job>, p: Parsers, insert: Store)
    requires Parseable(jobs)
    ensures forall e | e in Rejections(Outcomes(jobs, p, insert)) :: |e.job.row| >= 9
  {
    var os := Outcomes(jobs, p, insert);
    RejectionsMembers(os);
    forall e | e in Rejections(os) ensures |e.job.row| >= 9 {
      var k :| 0 <= k < |os| && os[k] == Rejected(e);
      assert e.job == jobs[k];
    }
  }

  /** Every rejected outcome has its error row among the error rows. */
  lemma {:induction false} RejectedAreReported(os: seq<Outcome>)
    ensures forall k | 0 <= k < |os| && os[k].Rejected? :: os[k].errRow in Rejections(os)
  {
    if os != [] {
      var init := os[..|os| - 1];
      RejectedAreReported(init);
      forall k | 0 <= k < |os| && os[k].Rejected? ensures os[k].errRow in Rejections(os) {
        if k < |init| {
          assert os[k] == init[k];
        }
      }
    }
  }

  /** For outcomes numbered 1, 2, 3, ..., the error rows come in increasing
      order of row number, so no number is reported twice. */
  lemma {:induction false} RejectionsIncreasing(os: seq<Outcome>)
    requires NumberedInOrder(os)
    ensures forall i, j | 0 <= i < j < |Rejections(os)| :: Rejections(os)[i].rowId < Rejections(os)[j].rowId
  {
    if os != [] {
      var init := os[..|os| - 1];
      assert NumberedInOrder(init) by {
        forall k | 0 <= k < |init| ensures init[k].Rejected? ==> init[k].errRow.rowId == k + 1 {
          assert init[k] == os[k];
        }
      }
      RejectionsIncreasing(init);
      RejectionsFromOutcomes(init);
      var errs, errs' := Rejections(os), Rejections(init);
      forall i, j | 0 <= i < j < |errs| ensures errs[i].rowId < errs[j].rowId {
        assert errs[i] == errs'[i] && errs'[i] in errs';
        if j < |errs'| {
          assert errs[j] == errs'[j];
        }
      }
    }
  }

  /** The error rows of the jobs sendJobs dispatches: each names, by its row
      number, the job it reports, and the numbers increase strictly. */
  lemma DispatchedErrorRows(input: seq<ReadResult>, p: Parsers, insert: Store)
    requires Parseable(DispatchedJobs(input))
    ensures var jobs := DispatchedJobs(input);
            forall e | e in Rejections(Outcomes(jobs, p, insert)) ::
              1 <= e.rowId <= |jobs| && e.job == jobs[e.rowId - 1] && e.job.rowNum == e.rowId
    ensures var errs := Rejections(Outcomes(DispatchedJobs(input), p, insert));
            forall i, j | 0 <= i < j < |errs| :: errs[i].rowId < errs[j].rowId
  {
    var jobs := DispatchedJobs(input);
    var os := Outcomes(jobs, p, insert);
    assert NumberedInOrder(os) by {
      forall k | 0 <= k < |os| ensures os[k].Rejected? ==> os[k].errRow.rowId == k + 1 {
        assert os[k] == Process(jobs[k], p, insert) && jobs[k].rowNum == k + 1;
      }
    }
    RejectionsFromOutcomes(os);
    RejectionsIncreasing(os);
    forall e | e in Rejections(os)
      ensures 1 <= e.rowId <= |jobs| && e.job == jobs[e.rowId - 1] && e.job.rowNum == e.rowId
    {
      assert os[e.rowId - 1] == Rejected(e);
    }
  }

  /** In a permutation `b` of a non-empty `a`, some position holds the last
      element of `a`, and the rest of `b` is a permutation of the rest of `a`. */
  lemma RemoveMatching<T>(a: seq<T>, b: seq<T>) returns (i: nat)
    requires a != [] && multiset(a) == multiset(b)
    ensures i < |b| && b[i] == a[|a| - 1]
    ensures a == a[..|a| - 1] + [a[|a| - 1]] && b == b[..i] + [b[i]] + b[i + 1..]
    ensures multiset(a[..|a| - 1]) == multiset(b[..i] + b[i + 1..])
  {
    var last := a[|a| - 1];
    var a' := a[..|a| - 1];
    assert a == a' + [last];
    assert last in multiset(b);
    i :| 0 <= i < |b| && b[i] == last;
    var b1, b2 := b[..i], b[i + 1..];
    assert b == b1 + [last] + b2;
    assert multiset(a) == multiset(a') + multiset{last};
    assert multiset(b) == multiset(b1) + multiset{last} + multiset(b2);
    assert multiset(b1 + b2) == multiset(b1) + multiset(b2);
    assert multiset(a') == multiset(a) - multiset{last};
    assert multiset(b1 + b2) == multiset(b) - multiset{last};
  }

  lemma {:induction false} RejectionsAppend(a: seq<Outcome>, b: seq<Outcome>)
    ensures Rejections(a + b) == Rejections(a) + Rejections(b)
  {
    if b == [] {
      assert a + b == a;
    } else {
      var b' := b[..|b| - 1];
      assert (a + b)[..|a + b| - 1] == a + b';
      RejectionsAppend(a, b');
    }
  }

  /** The error rows depend only on which outcomes there are, not on their
      order: however the jobs are shared out among workers and their
      results interleaved, the same error rows come out. */
  lemma {:induction false} RejectionsOrderIndependent(a: seq<Outcome>, b: seq<Outcome>)
    requires multiset(a) == multiset(b)
    ensures multiset(Rejections(a)) == multiset(Rejections(b))
    decreases |a|
  {
    if a != [] {
      var last := a[|a| - 1];
      var a' := a[..|a| - 1];
      var i := RemoveMatching(a, b);
      var b1, b2 := b[..i], b[i + 1..];
      RejectionsOrderIndependent(a', b1 + b2);
      RejectionsAppend(b1, b2);
      RejectionsAppend(b1, [last]);
      RejectionsAppend(b1 + [last], b2);
      RejectionsAppend(a', [last]);
      assert [last][..0] == [];
    } else {
      assert b == [];
    }
  }

  /** Each job's outcome depends on that job alone, so permuting the jobs
      permutes their outcomes. */
  lemma OutcomesOrderIndependent(a: seq<Job>, b: seq<Job>, p: Parsers, insert: Store)
    requires Parseable(a) && multiset(a) == multiset(b)
    ensures Parseable(b)
    ensures multiset(Outcomes(a, p, insert)) == multiset(Outcomes(b, p, insert))
  {
    var f := ProcessFn(p, insert);
    MapPermutation(f, a, b);
    assert Parseable(b) by {
      forall k | 0 <= k < |b| ensures |b[k].row| >= 9 {
        assert b[k] in multiset(a);
      }
    }
  }

  /** However the jobs are shared out among workers and interleaved, the
      same error rows come out. */
  lemma ErrorRowsOrderIndependent(a: seq<Job>, b: seq<Job>, p: Parsers, insert: Store)
    requires Parseable(a) && multiset(a) == multiset(b)
    ensures Parseable(b)
    ensures multiset(Rejections(Outcomes(a, p, insert))) == multiset(Rejections(Outcomes(b, p, insert)))
  {
    OutcomesOrderIndependent(a, b, p, insert);
    RejectionsOrderIndependent(Outcomes(a, p, insert), Outcomes(b, p, insert));
  }

  /** `f` applied to each element. */
  function MapSeq<A, B>(f: A --> B, s: seq<A>): (r: seq<B>)
    requires forall x | x in s :: f.requires(x)
    ensures |r| == |s| && forall k | 0 <= k < |s| :: r[k] == f(s[k])
  {
    seq(|s|, k requires 0 <= k < |s| => f(s[k]))
  }

  lemma MapAppend<A, B>(f: A --> B, a: seq<A>, b: seq<A>)
    requires forall x | x in a + b :: f.requires(x)
    ensures MapSeq(f, a + b) == MapSeq(f, a) + MapSeq(f, b)
  {
    var x, y, z := MapSeq(f, a + b), MapSeq(f, a), MapSeq(f, b);
    forall k | 0 <= k < |x| ensures x[k] == (y + z)[k] {
      if k >= |a| { assert (a + b)[k] == b[k - |a|]; }
    }
  }

  /** Mapping a function over a permutation gives a permutation of the images. */
  lemma {:induction false} MapPermutation<A, B>(f: A --> B, a: seq<A>, b: seq<A>)
    requires multiset(a) == multiset(b)
    requires forall x | x in a :: f.requires(x)
    ensures forall x | x in b :: f.requires(x)
    ensures multiset(MapSeq(f, a)) == multiset(MapSeq(f, b))
    decreases |a|
  {
    assert forall x | x in b :: x in multiset(a);
    if a != [] {
      var last := a[|a| - 1];
      var a' := a[..|a| - 1];
      var i := RemoveMatching(a, b);
      var b1, b2 := b[..i], b[i + 1..];
      MapPermutation(f, a', b1 + b2);
      MapAppend(f, a', [last]);
      MapAppend(f, b1, [last]);
      MapAppend(f, b1 + [last], b2);
      MapAppend(f, b1, b2);
      var m1, ml, m2 := MapSeq(f, b1), MapSeq(f, [last]), MapSeq(f, b2);
      assert MapSeq(f, b) == m1 + ml + m2;
      assert multiset(MapSeq(f, b)) == multiset(m1) + multiset(ml) + multiset(m2);
      assert multiset(MapSeq(f, b1 + b2)) == multiset(m1) + multiset(m2);
      assert multiset(MapSeq(f, a)) == multiset(MapSeq(f, a')) + multiset(ml);
    } else {
      assert |b| == |multiset(b)| == 0;
    }
  }

  // ---------------------------------------------------------- the collector

  /** One line of the error file: the job's first seven columns, then the
      error text. */
  function ErrorLine(e: ErrRow): (line: seq<string>)
    requires |e.job.row| >= 7
    ensures |line| == 8 && line[..7] == e.job.row[..7] && line[7] == Message(e.error)
  {
    e.job.row[..7] + [Message(e.error)]
  }

  function ErrorLines(errs: seq<ErrRow>): seq<seq<string>>
    requires forall e | e in errs :: |e.job.row| >= 7
  {
    seq(|errs|, k requires 0 <= k < |errs| => ErrorLine(errs[k]))
  }

  /** csv.Writer: records go to a buffer, and Flush moves the buffer to the
      file. The real writer's buffer is a bufio.Writer of 4096 bytes that
      also writes to the file by itself when full; only the file's content
      after Flush is modelled, not when each byte reaches it. */
  class CsvWriter {
    var file: seq<seq<string>>
    var buffer: seq<seq<string>>

    constructor ()
      ensures file == [] && buffer == []
    {
      file, buffer := [], [];
    }

    method Write(record: seq<string>)
      modifies this
      ensures file == old(file) && buffer == old(buffer) + [record]
    {
      buffer := buffer + [record];
    }

    method Flush()
      modifies this
      ensures file == old(file) + old(buffer) && buffer == []
    {
      file, buffer := file + buffer, [];
    }
  }

  /** sumErrors: one line per error row, in the order received, then a flush. */
  method SumErrors(w: CsvWriter, errs: seq<ErrRow>)
    requires forall e | e in errs :: |e.job.row| >= 7
    modifies w
    ensures w.file == old(w.file) + old(w.buffer) + ErrorLines(errs) && w.buffer == []
  {
    var i := 0;
    while i < |errs|
      invariant i <= |errs|
      invariant w.file == old(w.file)
      invariant w.buffer == old(w.buffer) + ErrorLines(errs[..i])
    {
      var err := errs[i];
      var row := err.job.row[..7];
      row := row + [Message(err.error)];
      w.Write(row);
      assert ErrorLines(errs[..i + 1]) == ErrorLines(errs[..i]) + [ErrorLine(err)];
      i := i + 1;
    }
    assert errs[..i] == errs;
    w.Flush();
  }

  // --------------------------------------------------------------- execute

  /** The rows sendJobs will hand to the workers are wide enough for parseRow. */
  predicate DispatchableRows(input: seq<ReadResult>)
  {
    var data := DataReads(input);
    forall k | 0 <= k < RecordRun(data) :: |data[k].fields| >= 9
  }

  lemma DispatchedParseable(input: seq<ReadResult>)
    requires DispatchableRows(input)
    ensures Parseable(DispatchedJobs(DataReads(input)))
  {
    var data := DataReads(input);
    var jobs := DispatchedJobs(data);
    forall k | 0 <= k < |jobs| ensures |jobs[k].row| >= 9 {
      assert jobs[k].row == data[k].fields;
    }
  }

  /** execute, sequentially: the header goes to the error file first, then
      every dispatched row is either stored or written as one error line. */
  method Execute(input: seq<ReadResult>, p: Parsers, insert: Store)
    returns (jobs: seq<Job>, errorFile: seq<seq<string>>, stored: seq<Employee>)
    requires DispatchableRows(input)
    ensures jobs == DispatchedJobs(DataReads(input)) && Parseable(jobs)
    ensures |errorFile| >= 1 && errorFile[0] == ErrFileHeader(Header(input))
    ensures |errorFile| - 1 + |stored| == |jobs|
    ensures forall e | e in Rejections(Outcomes(jobs, p, insert)) :: |e.job.row| >= 9
    ensures errorFile[1..] == ErrorLines(Rejections(Outcomes(jobs, p, insert)))
    ensures stored == Stores(Outcomes(jobs, p, insert))
  {
    var header := ErrFileHeader(Header(input));
    var w := new CsvWriter();
    w.Write(header);
    assert w.file == [] && w.buffer == [header];
    var data := DataReads(input);
    jobs := SendJobs(data);
    DispatchedJobsUnique(data, jobs);
    DispatchedParseable(input);
    var errs;
    stored, errs := Worker(jobs, p, insert);
    ghost var os := Outcomes(jobs, p, insert);
    assert errs == Rejections(os) && stored == Stores(os);
    RejectedRowsWide(jobs, p, insert);
    SumErrors(w, errs);
    errorFile := w.file;
    assert errorFile == [header] + ErrorLines(errs);
    assert errorFile[1..] == ErrorLines(errs);
    OutcomesCount(os);
  }
}
