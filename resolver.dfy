/**
 * The first half of the report tool: the mode check, the parsing of raw
 * record lines and their aggregation into per-group address totals.
 */
module Resolver {

  import opened Wrappers
  import Text

  // ---------------------------------------------------------------------------
  // Mode selection
  // ---------------------------------------------------------------------------

  datatype Mode = SumMode | ThreadedMode

  const ModeError: string := "Choose exactly one mode: --sum or --threaded"

  /** The run goes ahead only when exactly one of --sum and --threaded is given. */
  function SelectMode(sum: bool, threaded: bool): (r: Result<Mode, string>)
    ensures r.Success? <==> sum != threaded
    ensures r.Success? ==> (r.value == SumMode <==> sum)
    ensures r.Failure? ==> r.error == ModeError
  {
    if sum == threaded then Failure(ModeError)
    else if sum then Success(SumMode)
    else Success(ThreadedMode)
  }

  // ---------------------------------------------------------------------------
  // Parsing one line
  // ---------------------------------------------------------------------------

  /** An accepted line: address token, parsed count, thread token. */
  datatype Entry = Entry(addr: string, count: int, thread: string)

  /**
   * One input line: strip it, skip it when blank, split it on white space,
   * skip it unless there are exactly three fields, and skip it when int()
   * rejects the middle field.
   */
  function ParseLine(line: string): (r: Option<Entry>)
  {
    var stripped := Text.Strip(line);
    if stripped == [] then None
    else
      var parts := Text.Split(stripped);
      if |parts| != 3 then None
      else
        match Text.ParseInt(parts[1])
        case None => None
        case Some(count) => Some(Entry(parts[0], count, parts[2]))
  }

  /**
   * ParseLine accepts a line exactly when, once stripped, it splits into three
   * fields whose middle one int() accepts; the entry holds the first field,
   * the parsed middle one and the third.
   */
  lemma {:induction false} ParseLineFields(line: string)
    ensures Text.Strip(line) == [] ==> ParseLine(line).None?
    ensures ParseLine(line).Some? <==>
      var parts := Text.Split(Text.Strip(line));
      |parts| == 3 && Text.ParseInt(parts[1]).Some?
    ensures ParseLine(line).Some? ==>
      var parts := Text.Split(Text.Strip(line));
      ParseLine(line).value == Entry(parts[0], Text.ParseInt(parts[1]).value, parts[2])
      && Text.IsToken(parts[0]) && Text.IsToken(parts[2])
  {
    if Text.Strip(line) == [] {
      assert Text.Split([]) == [];
    }
    Text.SplitGivesTokens(Text.Strip(line));
  }

  /** ParseLine applied to every line. */
  function ParseAll(lines: seq<string>): (ps: seq<Option<Entry>>)
    ensures |ps| == |lines|
  {
    seq(|lines|, i requires 0 <= i < |lines| => ParseLine(lines[i]))
  }

  /** The entries held by the parsed lines that were accepted, in order. */
  function Present(ps: seq<Option<Entry>>): seq<Entry>
  {
    if ps == [] then []
    else
      var init, last := ps[..|ps| - 1], ps[|ps| - 1];
      Present(init) + (if last.Some? then [last.value] else [])
  }

  /** The entries of the accepted lines, in input order. */
  function Accepted(lines: seq<string>): seq<Entry>
  {
    Present(ParseAll(lines))
  }

  lemma {:induction false} ParseAllSnoc(lines: seq<string>, line: string)
    ensures ParseAll(lines + [line]) == ParseAll(lines) + [ParseLine(line)]
  {
  }

  lemma {:induction false} PresentSnoc(ps: seq<Option<Entry>>, p: Option<Entry>)
    ensures Present(ps + [p]) == Present(ps) + (if p.Some? then [p.value] else [])
  {
    assert (ps + [p])[..|ps|] == ps;
  }

  lemma {:induction false} PresentConcat(ps: seq<Option<Entry>>, qs: seq<Option<Entry>>)
    ensures Present(ps + qs) == Present(ps) + Present(qs)
    decreases |qs|
  {
    if qs == [] {
      assert ps + qs == ps;
    } else {
      var init := qs[..|qs| - 1];
      assert (ps + qs)[..|ps + qs| - 1] == ps + init;
      PresentConcat(ps, init);
    }
  }

  lemma {:induction false} AcceptedConcat(xs: seq<string>, ys: seq<string>)
    ensures Accepted(xs + ys) == Accepted(xs) + Accepted(ys)
  {
    assert ParseAll(xs + ys) == ParseAll(xs) + ParseAll(ys);
    PresentConcat(ParseAll(xs), ParseAll(ys));
  }

  // ---------------------------------------------------------------------------
  // Totals
  // ---------------------------------------------------------------------------

  /** Address -> total count, as a defaultdict(int). */
  type Totals = map<string, int>

  /** Group label -> totals: thread_maps. */
  type Groups = map<string, Totals>

  const AllThreads: string := "ALL_THREADS"

  /** defaultdict(int) lookup without inserting: a missing address reads as 0. */
  function Lookup(m: Totals, a: string): int
  {
    if a in m then m[a] else 0
  }

  /** A group's totals, empty when the group is missing. */
  function GroupOf(g: Groups, t: string): Totals
  {
    if t in g then g[t] else map[]
  }

  function EntryAddresses(es: seq<Entry>): set<string>
  {
    set i | 0 <= i < |es| :: es[i].addr
  }

  function EntryThreads(es: seq<Entry>): set<string>
  {
    set i | 0 <= i < |es| :: es[i].thread
  }

  /** Reference definition: the sum of the counts of the entries with address `a`. */
  function AddressTotal(es: seq<Entry>, a: string): int
  {
    if es == [] then 0
    else (if es[0].addr == a then es[0].count else 0) + AddressTotal(es[1..], a)
  }

  /** Reference definition: the sum of the counts of the entries with thread `t` and address `a`. */
  function ThreadAddressTotal(es: seq<Entry>, t: string, a: string): int
  {
    if es == [] then 0
    else (if es[0].thread == t && es[0].addr == a then es[0].count else 0) + ThreadAddressTotal(es[1..], t, a)
  }

  lemma {:induction false} AddressTotalSnoc(es: seq<Entry>, e: Entry, a: string)
    ensures AddressTotal(es + [e], a) == AddressTotal(es, a) + (if e.addr == a then e.count else 0)
  {
    if es != [] {
      assert (es + [e])[1..] == es[1..] + [e];
      AddressTotalSnoc(es[1..], e, a);
    } else {
      assert (es + [e])[1..] == [];
    }
  }

  lemma {:induction false} ThreadAddressTotalSnoc(es: seq<Entry>, e: Entry, t: string, a: string)
    ensures ThreadAddressTotal(es + [e], t, a)
         == ThreadAddressTotal(es, t, a) + (if e.thread == t && e.addr == a then e.count else 0)
  {
    if es != [] {
      assert (es + [e])[1..] == es[1..] + [e];
      ThreadAddressTotalSnoc(es[1..], e, t, a);
    } else {
      assert (es + [e])[1..] == [];
    }
  }

  lemma {:induction false} EntryAddressesSnoc(es: seq<Entry>, e: Entry)
    ensures EntryAddresses(es + [e]) == EntryAddresses(es) + {e.addr}
    ensures EntryThreads(es + [e]) == EntryThreads(es) + {e.thread}
  {
    var s := es + [e];
    assert s[|es|] == e;
    assert forall i :: 0 <= i < |es| ==> s[i] == es[i];
  }

  /** Sum mode, the `func_counts[addr] += count` loop over the accepted entries. */
  function SumTotals(es: seq<Entry>): Totals
  {
    if es == [] then map[]
    else
      var init, e := es[..|es| - 1], es[|es| - 1];
      var prev := SumTotals(init);
      prev[e.addr := Lookup(prev, e.addr) + e.count]
  }

  lemma {:induction false} SumTotalsSnoc(es: seq<Entry>, e: Entry)
    ensures SumTotals(es + [e]) == SumTotals(es)[e.addr := Lookup(SumTotals(es), e.addr) + e.count]
  {
    assert (es + [e])[..|es|] == es;
  }

  /** In sum mode an address is present exactly when some accepted line has it. */
  lemma {:induction false} SumTotalsKeys(es: seq<Entry>)
    ensures SumTotals(es).Keys == EntryAddresses(es)
  {
    if es != [] {
      var init, e := es[..|es| - 1], es[|es| - 1];
      assert es == init + [e];
      SumTotalsKeys(init);
      EntryAddressesSnoc(init, e);
    }
  }

  /**
   * In sum mode the total of an address is the sum of the counts of the
   * accepted lines that have it, whatever their thread field.
   */
  lemma {:induction false} SumTotalsAddUp(es: seq<Entry>, a: string)
    ensures Lookup(SumTotals(es), a) == AddressTotal(es, a)
  {
    if es != [] {
      var init, e := es[..|es| - 1], es[|es| - 1];
      assert es == init + [e];
      SumTotalsAddUp(init, a);
      AddressTotalSnoc(init, e, a);
    }
  }

  /** The addresses of the entries whose thread field is `t`. */
  function ThreadEntryAddresses(es: seq<Entry>, t: string): set<string>
  {
    set i | 0 <= i < |es| && es[i].thread == t :: es[i].addr
  }

  lemma {:induction false} ThreadEntryAddressesSnoc(es: seq<Entry>, e: Entry, t: string)
    ensures ThreadEntryAddresses(es + [e], t)
         == ThreadEntryAddresses(es, t) + (if e.thread == t then {e.addr} else {})
  {
    var s := es + [e];
    assert s[|es|] == e;
    assert forall i :: 0 <= i < |es| ==> s[i] == es[i];
  }

  /** Threaded mode, the `thread_maps[thread_hash][addr] += count` loop over the accepted entries. */
  function ThreadedTotals(es: seq<Entry>): Groups
  {
    if es == [] then map[]
    else
      var init, e := es[..|es| - 1], es[|es| - 1];
      var prev := ThreadedTotals(init);
      var group := GroupOf(prev, e.thread);
      prev[e.thread := group[e.addr := Lookup(group, e.addr) + e.count]]
  }

  lemma {:induction false} ThreadedTotalsSnoc(es: seq<Entry>, e: Entry)
    ensures var prev := ThreadedTotals(es); var group := GroupOf(prev, e.thread);
      ThreadedTotals(es + [e]) == prev[e.thread := group[e.addr := Lookup(group, e.addr) + e.count]]
  {
    assert (es + [e])[..|es|] == es;
  }

  /**
   * In threaded mode a thread has a group exactly when some accepted line
   * names it, and the group holds the addresses of the lines naming it.
   */
  lemma {:induction false} ThreadedTotalsKeys(es: seq<Entry>)
    ensures ThreadedTotals(es).Keys == EntryThreads(es)
    ensures forall t :: t in ThreadedTotals(es) ==> ThreadedTotals(es)[t].Keys == ThreadEntryAddresses(es, t)
  {
    if es != [] {
      var init, e := es[..|es| - 1], es[|es| - 1];
      assert es == init + [e];
      ThreadedTotalsKeys(init);
      EntryAddressesSnoc(init, e);
      var g := ThreadedTotals(es);
      forall t | t in g ensures g[t].Keys == ThreadEntryAddresses(es, t) {
        ThreadEntryAddressesSnoc(init, e, t);
        if t == e.thread && t !in ThreadedTotals(init) {
          assert t !in EntryThreads(init);
          assert ThreadEntryAddresses(init, t) == {};
        }
      }
    }
  }

  /**
   * In threaded mode the total for (thread, address) is the sum of the
   * counts of the accepted lines naming both; a missing group reads as 0.
   */
  lemma {:induction false} ThreadedTotalsAddUp(es: seq<Entry>, t: string, a: string)
    ensures Lookup(GroupOf(ThreadedTotals(es), t), a) == ThreadAddressTotal(es, t, a)
  {
    if es != [] {
      var init, e := es[..|es| - 1], es[|es| - 1];
      assert es == init + [e];
      ThreadedTotalsAddUp(init, t, a);
      ThreadAddressTotalSnoc(init, e, t, a);
    }
  }

  /** thread_maps after reading `lines` in the given mode. */
  function Aggregate(mode: Mode, lines: seq<string>): (g: Groups)
    ensures mode == SumMode ==> g.Keys == {AllThreads}
  {
    match mode
    case SumMode => map[AllThreads := SumTotals(Accepted(lines))]
    case ThreadedMode => ThreadedTotals(Accepted(lines))
  }

  /**
   * A line that ParseLine rejects (blank, not three fields, or a count that
   * is not an integer) changes no total in either mode, wherever it stands.
   */
  lemma {:induction false} SkippedLineContributesNothing(mode: Mode, before: seq<string>, line: string, after: seq<string>)
    requires ParseLine(line).None?
    ensures Aggregate(mode, before + [line] + after) == Aggregate(mode, before + after)
  {
    AcceptedConcat(before + [line], after);
    AcceptedConcat(before, [line]);
    AcceptedConcat(before, after);
    assert Accepted([line]) == Present([ParseLine(line)]) == [] by {
      PresentSnoc([], ParseLine(line));
      assert [] + [ParseLine(line)] == [ParseLine(line)];
    }
    assert Accepted(before) + [] == Accepted(before);
    assert Accepted(before + [line] + after) == Accepted(before + after);
  }

  // ---------------------------------------------------------------------------
  // The two modes agree
  // ---------------------------------------------------------------------------

  predicate Distinct(ts: seq<string>) {
    forall i, j :: 0 <= i < j < |ts| ==> ts[i] != ts[j]
  }

  /** The totals of address `a` in the groups `ts`, added up. */
  function SumOverGroups(ts: seq<string>, g: Groups, a: string): int
  {
    if ts == [] then 0 else Lookup(GroupOf(g, ts[0]), a) + SumOverGroups(ts[1..], g, a)
  }

  function SumOverThreads(ts: seq<string>, es: seq<Entry>, a: string): int
  {
    if ts == [] then 0 else ThreadAddressTotal(es, ts[0], a) + SumOverThreads(ts[1..], es, a)
  }

  lemma {:induction false} SumOverThreadsCons(ts: seq<string>, e: Entry, es: seq<Entry>, a: string)
    requires Distinct(ts)
    ensures SumOverThreads(ts, [e] + es, a)
         == SumOverThreads(ts, es, a) + (if e.addr == a && e.thread in ts then e.count else 0)
  {
    if ts != [] {
      assert ([e] + es)[1..] == es;
      SumOverThreadsCons(ts[1..], e, es, a);
      assert e.thread == ts[0] ==> e.thread !in ts[1..];
      assert e.thread in ts <==> e.thread == ts[0] || e.thread in ts[1..];
    }
  }

  lemma {:induction false} SumOverThreadsIsAddressTotal(ts: seq<string>, es: seq<Entry>, a: string)
    requires Distinct(ts)
    requires forall i :: 0 <= i < |es| ==> es[i].thread in ts
    ensures SumOverThreads(ts, es, a) == AddressTotal(es, a)
  {
    if es == [] {
      SumOverThreadsEmpty(ts, a);
    } else {
      assert es == [es[0]] + es[1..];
      SumOverThreadsCons(ts, es[0], es[1..], a);
      SumOverThreadsIsAddressTotal(ts, es[1..], a);
    }
  }

  lemma {:induction false} SumOverThreadsEmpty(ts: seq<string>, a: string)
    ensures SumOverThreads(ts, [], a) == 0
  {
    if ts != [] {
      SumOverThreadsEmpty(ts[1..], a);
    }
  }

  lemma {:induction false} SumOverGroupsOfThreaded(ts: seq<string>, es: seq<Entry>, a: string)
    ensures SumOverGroups(ts, ThreadedTotals(es), a) == SumOverThreads(ts, es, a)
  {
    if ts != [] {
      SumOverGroupsOfThreaded(ts[1..], es, a);
      ThreadedTotalsAddUp(es, ts[0], a);
    }
  }

  /**
   * Adding up an address's threaded totals over every thread group, each
   * taken once, gives that address's sum-mode total.
   */
  lemma {:induction false} ThreadedAddsUpToSum(lines: seq<string>, ts: seq<string>, a: string)
    requires Distinct(ts)
    requires Aggregate(ThreadedMode, lines).Keys <= set t | t in ts
    ensures SumOverGroups(ts, Aggregate(ThreadedMode, lines), a) == Lookup(Aggregate(SumMode, lines)[AllThreads], a)
  {
    var es := Accepted(lines);
    ThreadedTotalsKeys(es);
    forall i | 0 <= i < |es| ensures es[i].thread in ts {
      assert es[i].thread in EntryThreads(es);
    }
    SumOverGroupsOfThreaded(ts, es, a);
    SumOverThreadsIsAddressTotal(ts, es, a);
    SumTotalsAddUp(es, a);
  }

  // ---------------------------------------------------------------------------
  // The reading loops
  // ---------------------------------------------------------------------------

  /** The --sum reading loop: one group, ALL_THREADS, of per-address totals. */
  method AggregateSum(lines: seq<string>) returns (groups: Groups)
    ensures groups == Aggregate(SumMode, lines)
  {
    var funcCounts: Totals := map[];
    ghost var parsed: seq<Option<Entry>> := [];
    for i := 0 to |lines|
      invariant parsed == ParseAll(lines[..i])
      invariant funcCounts == SumTotals(Present(parsed))
    {
      var p := ParseLine(lines[i]);
      assert lines[..i + 1] == lines[..i] + [lines[i]];
      ParseAllSnoc(lines[..i], lines[i]);
      PresentSnoc(parsed, p);
      match p {
        case None =>
          assert Present(parsed) + [] == Present(parsed);
        case Some(e) =>
          SumTotalsSnoc(Present(parsed), e);
          funcCounts := funcCounts[e.addr := Lookup(funcCounts, e.addr) + e.count];
      }
      parsed := parsed + [p];
    }
    assert lines[..|lines|] == lines;
    groups := map[AllThreads := funcCounts];
  }

  /** The --threaded reading loop: one group per thread tag. */
  method AggregateThreaded(lines: seq<string>) returns (groups: Groups)
    ensures groups == Aggregate(ThreadedMode, lines)
  {
    groups := map[];
    ghost var parsed: seq<Option<Entry>> := [];
    for i := 0 to |lines|
      invariant parsed == ParseAll(lines[..i])
      invariant groups == ThreadedTotals(Present(parsed))
    {
      var p := ParseLine(lines[i]);
      assert lines[..i + 1] == lines[..i] + [lines[i]];
      ParseAllSnoc(lines[..i], lines[i]);
      PresentSnoc(parsed, p);
      match p {
        case None =>
          assert Present(parsed) + [] == Present(parsed);
        case Some(e) =>
          ThreadedTotalsSnoc(Present(parsed), e);
          var group := GroupOf(groups, e.thread);
          groups := groups[e.thread := group[e.addr := Lookup(group, e.addr) + e.count]];
      }
      parsed := parsed + [p];
    }
    assert lines[..|lines|] == lines;
  }

  /** The whole reading phase: the mode check, then the loop it selects. */
  method ReadCounts(sum: bool, threaded: bool, lines: seq<string>) returns (r: Result<Groups, string>)
    ensures sum == threaded ==> r == Failure(ModeError)
    ensures sum && !threaded ==> r == Success(Aggregate(SumMode, lines))
    ensures threaded && !sum ==> r == Success(Aggregate(ThreadedMode, lines))
  {
    match SelectMode(sum, threaded)
    case Failure(msg) =>
      r := Failure(msg);
    case Success(SumMode) =>
      var groups := AggregateSum(lines);
      r := Success(groups);
    case Success(ThreadedMode) =>
      var groups := AggregateThreaded(lines);
      r := Success(groups);
  }
}
