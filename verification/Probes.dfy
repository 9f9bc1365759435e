/** The liveness probe of the client: src/rmb/message.c, lines 170-189 and 205-231. */
module Probes {

  /** What happens to the probe: a request that expects an answer, an answer with the right
      header or a wrong one, the cancellation before a new choice, and the timer. */
  datatype Event = Ask | Answer(valid: bool) | Cancel | Tick

  /** `exec_server_test` reports that nothing is due, that the server does not answer, or that
      the test is still running. */
  datatype Report = Idle | NotAnswering | Testing

  datatype Flags = Flags(test: bool, lastTest: bool)

  function TickReport(f: Flags): Report {
    if f.test && f.lastTest then NotAnswering else if f.test then Testing else Idle
  }

  function Next(f: Flags, e: Event): Flags {
    match e
    case Ask => f.(test := true)
    case Answer(valid) => f.(test := !valid)
    case Cancel => Flags(false, false)
    case Tick => if f.test && !f.lastTest then Flags(true, true) else Flags(false, false)
  }

  function After(trace: seq<Event>): Flags {
    if trace == [] then Flags(false, false) else Next(After(trace[..|trace| - 1]), trace[|trace| - 1])
  }

  /** What the tick at position `i` reports. */
  function ReportAt(trace: seq<Event>, i: nat): Report
    requires i < |trace| && trace[i] == Tick
  {
    TickReport(After(trace[..i]))
  }

  /** An event that leaves an answer outstanding. */
  predicate Opens(e: Event) { e == Ask || e == Answer(false) }

  /** An event at `k` that ends what is outstanding: an answer, a cancellation, or a tick that
      reports anything but a running test. */
  predicate ClosesAt(trace: seq<Event>, k: nat)
    requires k < |trace|
  {
    trace[k] == Answer(true) || trace[k] == Cancel || (trace[k] == Tick && ReportAt(trace, k) != Testing)
  }

  /** Some answer has been outstanding since before position `i`. */
  ghost predicate Outstanding(trace: seq<Event>, i: nat)
    requires i <= |trace|
  {
    exists k :: 0 <= k < i && Opens(trace[k]) && forall j :: k < j < i ==> !ClosesAt(trace, j)
  }

  /** The last tick before position `i` reported a running test, and nothing was cancelled since. */
  ghost predicate TestedOnce(trace: seq<Event>, i: nat)
    requires i <= |trace|
  {
    exists k :: 0 <= k < i && trace[k] == Tick && ReportAt(trace, k) == Testing
      && forall j :: k < j < i ==> trace[j] != Tick && trace[j] != Cancel
  }

  lemma {:induction false} TestMeans(trace: seq<Event>, i: nat)
    requires i <= |trace|
    ensures After(trace[..i]).test <==> Outstanding(trace, i)
    decreases i
  {
    if i == 0 {
    } else {
      TestMeans(trace, i - 1);
      assert trace[..i][..i - 1] == trace[..i - 1];
      var e, f := trace[i - 1], After(trace[..i - 1]);
      assert After(trace[..i]) == Next(f, e);
      if !Opens(e) && !ClosesAt(trace, i - 1) {
        assert Outstanding(trace, i - 1) <==> Outstanding(trace, i);
      }
    }
  }

  lemma {:induction false} LastTestMeans(trace: seq<Event>, i: nat)
    requires i <= |trace|
    ensures After(trace[..i]).lastTest <==> TestedOnce(trace, i)
    decreases i
  {
    if i == 0 {
    } else {
      LastTestMeans(trace, i - 1);
      assert trace[..i][..i - 1] == trace[..i - 1];
      var e, f := trace[i - 1], After(trace[..i - 1]);
      assert After(trace[..i]) == Next(f, e);
      if Opens(e) || e == Answer(true) {
        assert TestedOnce(trace, i - 1) <==> TestedOnce(trace, i);
      }
      if e == Tick && ReportAt(trace, i - 1) == Testing {
        assert TestedOnce(trace, i);
      }
    }
  }

  /** On every trace: a tick reports that the server does not answer exactly if an answer is
      outstanding and the previous tick already reported a running test, with no cancellation
      since; and that a test is running exactly if an answer is outstanding and not so. */
  lemma ReportTheorem(trace: seq<Event>, i: nat)
    requires i < |trace| && trace[i] == Tick
    ensures ReportAt(trace, i) == NotAnswering <==> Outstanding(trace, i) && TestedOnce(trace, i)
    ensures ReportAt(trace, i) == Testing <==> Outstanding(trace, i) && !TestedOnce(trace, i)
  {
    TestMeans(trace, i);
    LastTestMeans(trace, i);
  }

  lemma {:induction false} StaysOpen(trace: seq<Event>, from: nat, i: nat)
    requires from <= i <= |trace|
    requires forall j :: from <= j < i ==> Opens(trace[j])
    ensures After(trace[..i]).lastTest == After(trace[..from]).lastTest
    ensures from < i || After(trace[..from]).test ==> After(trace[..i]).test
    decreases i
  {
    if from < i {
      assert trace[..i][..i - 1] == trace[..i - 1];
      StaysOpen(trace, from, i - 1);
    }
  }

  /** A request that is neither answered nor cancelled is reported by one of the two ticks after
      it: at the latest by the second. */
  lemma ReportedInTime(trace: seq<Event>, ask: nat, first: nat, second: nat)
    requires ask < first < second < |trace| && trace[first] == Tick && trace[second] == Tick
    requires forall j :: ask <= j < second && j != first ==> Opens(trace[j])
    ensures ReportAt(trace, first) == NotAnswering || ReportAt(trace, second) == NotAnswering
  {
    StaysOpen(trace, ask, first);
    assert trace[..first + 1][..first] == trace[..first];
    StaysOpen(trace, first + 1, second);
  }

  /** The static flags of the client and the functions that change them. */
  class Probe {
    var test: bool
    var lastTest: bool
    ghost var trace: seq<Event>

    ghost predicate Valid()
      reads this
    {
      After(trace) == Flags(test, lastTest)
    }

    constructor ()
      ensures Valid() && trace == []
    {
      test, lastTest, trace := false, false, [];
    }

    method AskServerTest()
      requires Valid()
      modifies this
      ensures Valid() && trace == old(trace) + [Ask]
    {
      hide After;
      test := true;
      Happened(trace, Ask);
      trace := trace + [Ask];
    }

    /** The reply handling of `handle_incoming_messages`. */
    method HandleReply(op: string)
      requires Valid()
      modifies this
      ensures Valid() && trace == old(trace) + [Answer(op == "MESSAGES")]
    {
      hide After;
      test := op != "MESSAGES";
      Happened(trace, Answer(op == "MESSAGES"));
      trace := trace + [Answer(op == "MESSAGES")];
    }

    method CancelServerTest()
      requires Valid()
      modifies this
      ensures Valid() && trace == old(trace) + [Cancel]
    {
      hide After;
      test, lastTest := false, false;
      Happened(trace, Cancel);
      trace := trace + [Cancel];
    }

    method ExecServerTest() returns (report: Report)
      requires Valid()
      modifies this
      ensures Valid() && trace == old(trace) + [Tick]
      ensures report == ReportAt(trace, |trace| - 1)
    {
      hide After;
      Happened(trace, Tick);
      if test && lastTest {
        test, lastTest := false, false;
        report := NotAnswering;
      } else if test && !lastTest {
        lastTest := true;
        report := Testing;
      } else {
        test, lastTest := false, false;
        report := Idle;
      }
      trace := trace + [Tick];
    }
  }

  lemma Happened(trace: seq<Event>, e: Event)
    ensures After(trace + [e]) == Next(After(trace), e)
    ensures (trace + [e])[..|trace|] == trace
  {
  }
}
