/**
 * The runtime's output file read back by the report tool: every record line
 * the destructor writes is accepted by the reader with the same address
 * text, count and thread tag, and the sum-mode totals of one flush are the
 * counts of the table that was flushed.
 */
module Pipeline {

  import opened Wrappers
  import Text
  import CallCounter
  import Resolver

  /** The entry the reader is meant to recover from one record. */
  function EntryOf(r: CallCounter.Record): Resolver.Entry
  {
    Resolver.Entry(CallCounter.PointerText(r.addr), r.count, Text.Decimal(r.tag))
  }

  function Entries(records: seq<CallCounter.Record>): (es: seq<Resolver.Entry>)
    ensures |es| == |records|
    ensures forall i :: 0 <= i < |records| ==> es[i] == EntryOf(records[i])
  {
    if records == [] then [] else [EntryOf(records[0])] + Entries(records[1..])
  }

  /**
   * A line "<addr> <count> <tag>\n" with any space-free address text and
   * decimal count and tag parses back to that address text, count and tag.
   */
  lemma {:induction false} ReadBackLine(addr: string, count: nat, tag: nat)
    requires Text.IsToken(addr)
    ensures Resolver.ParseLine(Text.JoinWithSpaces([addr, Text.Decimal(count), Text.Decimal(tag)]) + "\n")
         == Some(Resolver.Entry(addr, count, Text.Decimal(tag)))
  {
    var ws := [addr, Text.Decimal(count), Text.Decimal(tag)];
    Text.DecimalIsToken(count);
    Text.DecimalIsToken(tag);
    var s := Text.JoinWithSpaces(ws);
    Text.JoinedTokensAreTrimmed(ws);
    var line := s + "\n";
    assert Text.TrimStart(line) == line;
    Text.TrimEndDropsTrailingSpace(s, '\n');
    Text.StripKeepsInnerText(s);
    assert Text.TrimStart(s) == s;
    assert Text.Strip(line) == s;
    Text.SplitJoin(ws);
    Text.ParseDecimal(count);
  }

  /** A record line parses back to the record's address text, count and tag. */
  lemma {:induction false} ReadBackRecordLine(r: CallCounter.Record)
    ensures Resolver.ParseLine(CallCounter.RecordLine(r)) == Some(EntryOf(r))
  {
    ReadBackLine(CallCounter.PointerText(r.addr), r.count, r.tag);
  }

  /** The reader accepts every line of a flush, in order, as the records' entries. */
  lemma {:induction false} ReadBackRecords(records: seq<CallCounter.Record>)
    ensures Resolver.Accepted(CallCounter.RecordLines(records)) == Entries(records)
  {
    if records != [] {
      var lines := CallCounter.RecordLines(records);
      var first := CallCounter.RecordLine(records[0]);
      assert lines == [first] + CallCounter.RecordLines(records[1..]);
      Resolver.AcceptedConcat([first], CallCounter.RecordLines(records[1..]));
      ReadBackRecordLine(records[0]);
      assert Resolver.ParseAll([first]) == [Some(EntryOf(records[0]))];
      assert Resolver.Present([Some(EntryOf(records[0]))])
          == Resolver.Present([]) + [EntryOf(records[0])];
      ReadBackRecords(records[1..]);
    }
  }

  /**
   * Among records with distinct addresses, the entries' total for an
   * address's text is that address's count, or zero when no record has it.
   */
  lemma {:induction false} EntriesTotal(records: seq<CallCounter.Record>, f: CallCounter.Address)
    requires CallCounter.DistinctAddresses(records)
    ensures f !in CallCounter.Addresses(records) ==>
      Resolver.AddressTotal(Entries(records), CallCounter.PointerText(f)) == 0
    ensures forall i :: 0 <= i < |records| && records[i].addr == f ==>
      Resolver.AddressTotal(Entries(records), CallCounter.PointerText(f)) == records[i].count
  {
    if records != [] {
      var rest := records[1..];
      assert CallCounter.DistinctAddresses(rest) by {
        forall i, j | 0 <= i < j < |rest| ensures rest[i].addr != rest[j].addr {
          assert rest[i] == records[i + 1] && rest[j] == records[j + 1];
        }
      }
      EntriesTotal(rest, f);
      assert Entries(records)[1..] == Entries(rest);
      if CallCounter.PointerText(records[0].addr) == CallCounter.PointerText(f) {
        CallCounter.PointerTextInjective(records[0].addr, f);
      }
      assert f in CallCounter.Addresses(rest) ==> f in CallCounter.Addresses(records) by {
        if f in CallCounter.Addresses(rest) {
          var k :| 0 <= k < |rest| && rest[k].addr == f;
          assert records[k + 1].addr == f;
        }
      }
      forall i | 1 <= i < |records| && records[i].addr == f
        ensures f in CallCounter.Addresses(rest) && rest[i - 1].addr == f
      {
        assert rest[i - 1] == records[i];
      }
    }
  }

  /**
   * End to end: when one thread's table `m` is flushed to the file and the
   * file is read in sum mode, every function's reported total is its count
   * in `m`, and zero for a function that was never entered.
   */
  lemma {:induction false} FlushReadInSumMode(records: seq<CallCounter.Record>, m: map<CallCounter.Address, nat>,
                           tag: nat, f: CallCounter.Address)
    requires CallCounter.IsFlushOf(records, m, tag)
    ensures var totals := Resolver.Aggregate(Resolver.SumMode, CallCounter.RecordLines(records))[Resolver.AllThreads];
      Resolver.Lookup(totals, CallCounter.PointerText(f)) == if f in m then m[f] else 0
  {
    ReadBackRecords(records);
    Resolver.SumTotalsAddUp(Entries(records), CallCounter.PointerText(f));
    EntriesTotal(records, f);
    if f in m {
      assert f in CallCounter.Addresses(records);
      var i :| 0 <= i < |records| && records[i].addr == f;
    }
  }

  /**
   * The raw file after a run: cc_constructor truncates it, then every thread
   * that ends appends its flush; `flushes` lists them in the order the
   * threads ended.
   */
  function RunOutput(flushes: seq<seq<CallCounter.Record>>): seq<string>
  {
    if flushes == [] then []
    else RunOutput(flushes[..|flushes| - 1]) + CallCounter.RecordLines(flushes[|flushes| - 1])
  }

  function RunEntries(flushes: seq<seq<CallCounter.Record>>): seq<Resolver.Entry>
  {
    if flushes == [] then []
    else RunEntries(flushes[..|flushes| - 1]) + Entries(flushes[|flushes| - 1])
  }

  /** The reader accepts the whole file: every record of every flush, none lost, none added. */
  lemma {:induction false} ReadBackRun(flushes: seq<seq<CallCounter.Record>>)
    ensures Resolver.Accepted(RunOutput(flushes)) == RunEntries(flushes)
  {
    if flushes != [] {
      var init, last := flushes[..|flushes| - 1], flushes[|flushes| - 1];
      ReadBackRun(init);
      ReadBackRecords(last);
      Resolver.AcceptedConcat(RunOutput(init), CallCounter.RecordLines(last));
    }
  }
}
