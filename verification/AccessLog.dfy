/**
 The sampled access log: one call in `sampleRate` by a running counter, and besides every call
 whose status is one of those always logged.
 */
module AccessLog {
  import opened Rounds
  import opened Sums

  /** Status codes as gRPC numbers them. */
  type GrpcStatus = nat

  const PERMISSION_DENIED: GrpcStatus := 7
  const RESOURCE_EXHAUSTED: GrpcStatus := 8
  const FAILED_PRECONDITION: GrpcStatus := 9
  const INTERNAL: GrpcStatus := 13
  const UNAUTHENTICATED: GrpcStatus := 16

  const ALWAYS_LOGGED: set<GrpcStatus> :=
    {PERMISSION_DENIED, UNAUTHENTICATED, RESOURCE_EXHAUSTED, INTERNAL, FAILED_PRECONDITION}

  datatype Entry = Entry(rpc: string, identity: string, status: GrpcStatus, durationMs: int)

  /** A written line, as a warning or not. */
  datatype Line = Line(entry: Entry, warning: bool)

  predicate Always(entry: Entry) {
    entry.status in ALWAYS_LOGGED
  }

  /** A remainder by zero is not a number, so a rate of zero samples nothing. */
  predicate ShouldLog(sampleRate: nat, counter: nat, status: GrpcStatus) {
    status in ALWAYS_LOGGED || (sampleRate != 0 && counter % sampleRate == 0)
  }

  /** The lines written for the entries recorded so far. */
  function Lines(sampleRate: nat, entries: seq<Entry>): seq<Line> {
    if entries == [] then []
    else
      var n := |entries| - 1;
      Lines(sampleRate, entries[..n]) +
      (if ShouldLog(sampleRate, n, entries[n].status) then [Line(entries[n], Always(entries[n]))] else [])
  }

  class GrpcAccessLog {
    const sampleRate: nat
    var counter: nat
    var lines: seq<Line>
    ghost var recorded: seq<Entry>

    ghost predicate Valid()
      reads this
    {
      counter == |recorded| && lines == Lines(sampleRate, recorded)
    }

    constructor (sampleRate: nat)
      ensures Valid() && this.sampleRate == sampleRate && recorded == []
    {
      this.sampleRate := sampleRate;
      counter, lines, recorded := 0, [], [];
    }

    method Record(entry: Entry)
      requires Valid()
      modifies this
      ensures Valid() && recorded == old(recorded) + [entry]
    {
      var write := ShouldLog(sampleRate, counter, entry.status);
      counter := counter + 1;
      assert (recorded + [entry])[..|recorded|] == recorded;
      recorded := recorded + [entry];
      if !write {
        return;
      }
      lines := lines + [Line(entry, Always(entry))];
    }
  }

  lemma {:induction false} LinesGrow(sampleRate: nat, entries: seq<Entry>, n: nat)
    requires n <= |entries|
    ensures Lines(sampleRate, entries[..n]) <= Lines(sampleRate, entries)
  {
    if n < |entries| {
      LinesGrow(sampleRate, entries[..|entries| - 1], n);
      assert entries[..|entries| - 1][..n] == entries[..n];
    } else {
      assert entries[..n] == entries;
    }
  }

  /** What record `i` adds: a line if its turn has come or its status is listed, a warning if it is listed. */
  lemma WrittenExactly(sampleRate: nat, entries: seq<Entry>, i: nat)
    requires i < |entries|
    ensures var listed, turn := entries[i].status in {7, 8, 9, 13, 16}, sampleRate != 0 && i % sampleRate == 0;
      Lines(sampleRate, entries[..i + 1])
      == Lines(sampleRate, entries[..i]) + (if listed || turn then [Line(entries[i], listed)] else [])
  {
    assert entries[..i + 1][..i] == entries[..i];
  }

  /** Every entry with one of the statuses is written, as a warning, whatever the rate. */
  lemma AlwaysWritten(sampleRate: nat, entries: seq<Entry>, i: nat)
    requires i < |entries| && entries[i].status in {7, 8, 9, 13, 16}
    ensures Line(entries[i], true) in Lines(sampleRate, entries)
  {
    assert entries[..i + 1][..i] == entries[..i];
    LinesGrow(sampleRate, entries, i + 1);
    var written := Lines(sampleRate, entries[..i + 1]);
    assert written[|written| - 1] == Line(entries[i], true);
    assert Lines(sampleRate, entries)[|written| - 1] == Line(entries[i], true);
  }

  /** The lines that `n` entries lead to are the sampled ones, and the others that are always logged. */
  lemma {:induction false} LineCount(sampleRate: nat, entries: seq<Entry>)
    requires sampleRate > 0
    ensures Turns(|entries|, sampleRate, 0) <= |Lines(sampleRate, entries)|
         <= Count(Always, entries) + Turns(|entries|, sampleRate, 0)
  {
    if entries == [] {
    } else {
      LineCount(sampleRate, entries[..|entries| - 1]);
    }
  }

  lemma {:induction false} UnsampledCount(entries: seq<Entry>)
    ensures |Lines(0, entries)| == Count(Always, entries)
  {
    if entries == [] {
    } else {
      UnsampledCount(entries[..|entries| - 1]);
    }
  }

  /**
   Over any `n` records, `D` of them always logged, the number written is between `ceil(n / rate)`
   and `D` more than that; with a rate of zero it is `D`.
   */
  lemma SamplingBounds(sampleRate: nat, entries: seq<Entry>)
    ensures var n, d, written := |entries|, Count(Always, entries), |Lines(sampleRate, entries)|;
      if sampleRate == 0 then written == d
      else CeilDiv(n, sampleRate) <= written <= d + CeilDiv(n, sampleRate)
  {
    if sampleRate == 0 {
      UnsampledCount(entries);
    } else {
      LineCount(sampleRate, entries);
      TurnsShare(|entries|, sampleRate, 0);
    }
  }

  /** Any `sampleRate` consecutive records, of whatever statuses, include a written one. */
  lemma NoLongGap(sampleRate: nat, entries: seq<Entry>, from: nat)
    requires sampleRate > 0 && from + sampleRate <= |entries|
    ensures exists i :: from <= i < from + sampleRate && ShouldLog(sampleRate, i, entries[i].status)
    ensures |Lines(sampleRate, entries[..from])| < |Lines(sampleRate, entries[..from + sampleRate])|
  {
    var i := MultipleWithin(from, sampleRate);
    assert ShouldLog(sampleRate, i, entries[i].status);
    assert entries[..i + 1][..i] == entries[..i] && entries[..i][..from] == entries[..from];
    assert entries[..from + sampleRate][..i + 1] == entries[..i + 1];
    LinesGrow(sampleRate, entries[..i], from);
    LinesGrow(sampleRate, entries[..from + sampleRate], i + 1);
  }
}
