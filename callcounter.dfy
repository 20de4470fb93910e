/**
 * The instrumentation runtime: the per-thread call table filled by the
 * compiler's entry hook, its flush into raw records when the thread ends,
 * and the choice of output path at process start.
 */
module CallCounter {

  import opened Wrappers
  import Text

  /** Identity of an instrumented function: its entry address, used only as a key. */
  type Address = nat

  /** One line of the raw output file: address, final count, thread tag. */
  datatype Record = Record(addr: Address, count: nat, tag: nat)

  // ---------------------------------------------------------------------------
  // Output path (cc_constructor)
  // ---------------------------------------------------------------------------

  const DefaultOutfile: string := "callcounter.raw"

  /** The output path: the CC_OUTFILE value when the variable is set, else the default. */
  function OutputPath(ccOutfile: Option<string>): (path: string)
    ensures ccOutfile.Some? ==> path == ccOutfile.value
    ensures ccOutfile.None? ==> path == DefaultOutfile
  {
    match ccOutfile
    case Some(p) => p
    case None => DefaultOutfile
  }

  // ---------------------------------------------------------------------------
  // The call table and its specification
  // ---------------------------------------------------------------------------

  /** The effect of `map[func]++` on an unordered_map: insert 0 if absent, then add one. */
  function Increment(m: map<Address, nat>, f: Address): (r: map<Address, nat>)
    ensures r.Keys == m.Keys + {f}
    ensures f in m ==> r[f] == m[f] + 1
    ensures f !in m ==> r[f] == 1
    ensures forall g :: g in m && g != f ==> r[g] == m[g]
  {
    m[f := (if f in m then m[f] else 0) + 1]
  }

  /**
   * The table after the entry hook has seen `calls`, in order: a function is
   * a key exactly when it was entered, and its count is how often it was.
   */
  function Tally(calls: seq<Address>): (m: map<Address, nat>)
    ensures forall f :: f in m <==> f in calls
    ensures forall f :: f in m ==> m[f] == multiset(calls)[f]
  {
    if calls == [] then map[]
    else
      var init, last := calls[..|calls| - 1], calls[|calls| - 1];
      assert calls == init + [last];
      Increment(Tally(init), last)
  }

  /** One more entry changes the tally exactly as `Increment` does. */
  lemma {:induction false} TallySnoc(calls: seq<Address>, f: Address)
    ensures Tally(calls + [f]) == Increment(Tally(calls), f)
  {
    assert (calls + [f])[..|calls|] == calls;
  }

  /** The set of addresses carried by `records`. */
  function Addresses(records: seq<Record>): set<Address>
  {
    set i | 0 <= i < |records| :: records[i].addr
  }

  lemma {:induction false} AddressesSnoc(records: seq<Record>, r: Record)
    ensures Addresses(records + [r]) == Addresses(records) + {r.addr}
  {
    var s := records + [r];
    forall a | a in Addresses(s) ensures a in Addresses(records) + {r.addr} {
      var i :| 0 <= i < |s| && s[i].addr == a;
      if i < |records| {
        assert records[i].addr == a;
      }
    }
    forall a | a in Addresses(records) + {r.addr} ensures a in Addresses(s) {
      if a == r.addr {
        assert s[|records|].addr == a;
      } else {
        var i :| 0 <= i < |records| && records[i].addr == a;
        assert s[i].addr == a;
      }
    }
  }

  predicate DistinctAddresses(records: seq<Record>) {
    forall i, j :: 0 <= i < j < |records| ==> records[i].addr != records[j].addr
  }

  /**
   * `records` is a flush of table `m` for the thread tagged `tag`: one record
   * per key, in some order, each with that key's count and the thread's tag.
   */
  predicate IsFlushOf(records: seq<Record>, m: map<Address, nat>, tag: nat) {
    && DistinctAddresses(records)
    && Addresses(records) == m.Keys
    && (forall i :: 0 <= i < |records| ==> records[i].addr in m && records[i].count == m[records[i].addr])
    && (forall i :: 0 <= i < |records| ==> records[i].tag == tag)
  }

  lemma {:induction false} DistinctAddressesCount(records: seq<Record>)
    requires DistinctAddresses(records)
    ensures |Addresses(records)| == |records|
  {
    if records != [] {
      var init := records[..|records| - 1];
      var last := records[|records| - 1];
      DistinctAddressesCount(init);
      assert records == init + [last];
      AddressesSnoc(init, last);
      assert last.addr !in Addresses(init);
    }
  }

  /** A flush emits exactly as many records as the table has keys. */
  lemma {:induction false} FlushSize(records: seq<Record>, m: map<Address, nat>, tag: nat)
    requires IsFlushOf(records, m, tag)
    ensures |records| == |m|
  {
    DistinctAddressesCount(records);
    assert |m.Keys| == |m|;
  }

  /**
   * Flushing the table built from `calls` yields one record per function
   * entered at least once, carrying how many times it was entered.
   */
  lemma {:induction false} FlushOfTally(records: seq<Record>, calls: seq<Address>, tag: nat)
    requires IsFlushOf(records, Tally(calls), tag)
    ensures forall i :: 0 <= i < |records| ==> records[i].count == multiset(calls)[records[i].addr] > 0
    ensures forall f :: f in calls <==> f in Addresses(records)
    ensures |records| == |set f | f in calls|
  {
    FlushSize(records, Tally(calls), tag);
    assert Tally(calls).Keys == set f | f in calls;
  }

  // ---------------------------------------------------------------------------
  // ThreadCallMap: the thread_local table
  // ---------------------------------------------------------------------------

  class ThreadCallMap {
    /** The unordered_map from function address to call count. */
    var counts: map<Address, nat>
    /** The functions entered so far on the owning thread, in order. */
    ghost var calls: seq<Address>

    ghost predicate Valid()
      reads this
    {
      counts == Tally(calls)
    }

    constructor ()
      ensures Valid() && calls == [] && counts == map[]
    {
      counts := map[];
      calls := [];
    }

    /** __cyg_profile_func_enter: count one more entry of `func`; `caller` is ignored. */
    method Enter(func: Address, caller: Address)
      requires Valid()
      modifies this
      ensures Valid() && calls == old(calls) + [func]
      ensures counts == Increment(old(counts), func)
    {
      var current := if func in counts then counts[func] else 0;
      TallySnoc(calls, func);
      counts := counts[func := current + 1];
      calls := calls + [func];
    }

    /** __cyg_profile_func_exit: does nothing. */
    method Exit(func: Address, caller: Address)
      ensures counts == old(counts) && calls == old(calls)
    {
    }

    /**
     * The destructor's flush. `sinkOpens` says whether fopen(outfile, "a")
     * succeeds; `attempted` reports whether it was attempted at all. The lines
     * written are the returned records, one per key of the table.
     */
    method Flush(tag: nat, sinkOpens: bool) returns (attempted: bool, records: seq<Record>)
      ensures attempted <==> counts != map[]
      ensures !attempted || !sinkOpens ==> records == []
      ensures attempted && sinkOpens ==> IsFlushOf(records, counts, tag)
    {
      attempted := counts != map[];
      records := [];
      if !attempted || !sinkOpens {
        return;
      }
      var pending := counts.Keys;
      while pending != {}
        invariant pending <= counts.Keys
        invariant DistinctAddresses(records)
        invariant Addresses(records) == counts.Keys - pending
        invariant forall i :: 0 <= i < |records| ==> records[i].addr in counts && records[i].count == counts[records[i].addr]
        invariant forall i :: 0 <= i < |records| ==> records[i].tag == tag
        decreases pending
      {
        var key :| key in pending;
        ghost var before := records;
        records := records + [Record(key, counts[key], tag)];
        AddressesSnoc(before, Record(key, counts[key], tag));
        pending := pending - {key};
      }
    }
  }

  // ---------------------------------------------------------------------------
  // One thread's life: hooks fire, then the thread_local is destroyed
  // ---------------------------------------------------------------------------

  datatype Hook = EnterHook(func: Address, caller: Address) | ExitHook(func: Address, caller: Address)

  /** How many hooks of `hooks` are entries into `f`. */
  function EnterCount(hooks: seq<Hook>, f: Address): nat
  {
    if hooks == [] then 0
    else
      var init, last := hooks[..|hooks| - 1], hooks[|hooks| - 1];
      EnterCount(init, f) + (if last == EnterHook(f, last.caller) then 1 else 0)
  }

  /** The functions entered by `hooks`, in order; exits and callers are dropped. */
  function EnteredFunctions(hooks: seq<Hook>): (fs: seq<Address>)
    ensures |fs| <= |hooks|
    ensures forall j :: 0 <= j < |fs| ==> exists i :: 0 <= i < |hooks| && hooks[i].EnterHook? && hooks[i].func == fs[j]
    ensures forall i :: 0 <= i < |hooks| && hooks[i].EnterHook? ==> hooks[i].func in fs
  {
    if hooks == [] then []
    else
      var init, last := hooks[..|hooks| - 1], hooks[|hooks| - 1];
      assert forall i :: 0 <= i < |init| ==> init[i] == hooks[i];
      EnteredFunctions(init) + (if last.EnterHook? then [last.func] else [])
  }

  /** Each function occurs in `EnteredFunctions(hooks)` once per entry hook into it. */
  lemma {:induction false} EnteredFunctionsCount(hooks: seq<Hook>, f: Address)
    ensures multiset(EnteredFunctions(hooks))[f] == EnterCount(hooks, f)
  {
    if hooks != [] {
      var init, last := hooks[..|hooks| - 1], hooks[|hooks| - 1];
      EnteredFunctionsCount(init, f);
      var now := if last.EnterHook? then [last.func] else [];
      assert EnteredFunctions(hooks) == EnteredFunctions(init) + now;
      assert multiset(EnteredFunctions(hooks)) == multiset(EnteredFunctions(init)) + multiset(now);
    }
  }

  /**
   * A thread that fires `hooks` and then ends: the table is created by the
   * first entry hook, and its destructor flushes it with the thread's tag.
   * The result depends only on the entered functions: callers and exit hooks
   * have no effect, and a thread that entered nothing emits nothing.
   */
  method RunThread(hooks: seq<Hook>, tag: nat, sinkOpens: bool) returns (records: seq<Record>)
    ensures EnteredFunctions(hooks) == [] || !sinkOpens ==> records == []
    ensures EnteredFunctions(hooks) != [] && sinkOpens ==> IsFlushOf(records, Tally(EnteredFunctions(hooks)), tag)
  {
    var table: ThreadCallMap? := null;
    for i := 0 to |hooks|
      invariant table == null ==> EnteredFunctions(hooks[..i]) == []
      invariant table != null ==> fresh(table) && table.Valid() && table.calls == EnteredFunctions(hooks[..i])
    {
      assert hooks[..i + 1][..i] == hooks[..i];
      match hooks[i]
      case EnterHook(func, caller) =>
        if table == null {
          table := new ThreadCallMap();
        }
        table.Enter(func, caller);
      case ExitHook(func, caller) =>
        if table != null {
          table.Exit(func, caller);
        }
    }
    assert hooks[..|hooks|] == hooks;
    records := [];
    if table != null {
      var _, flushed := table.Flush(tag, sinkOpens);
      records := flushed;
    }
  }

  // ---------------------------------------------------------------------------
  // Text of a record: fprintf(f, "%p %lu %zu\n", key, value, tid_num)
  // ---------------------------------------------------------------------------

  function HexDigit(d: nat): (c: char)
    requires d < 16
    ensures !Text.IsSpace(c)
  {
    if d < 10 then Text.DigitChar(d) else ('a' as int + (d - 10)) as char
  }

  /** Lower-case hexadecimal digits of `n`, without a prefix. */
  function Hex(n: nat): (s: string)
    ensures |s| > 0 && forall i :: 0 <= i < |s| ==> !Text.IsSpace(s[i])
  {
    if n < 16 then [HexDigit(n)] else Hex(n / 16) + [HexDigit(n % 16)]
  }

  /** `%p` as the GNU C library prints it: "(nil)" for null, else "0x" and hex digits. */
  function PointerText(a: Address): (s: string)
    ensures Text.IsToken(s)
  {
    if a == 0 then "(nil)" else "0x" + Hex(a)
  }

  lemma {:induction false} HexDigitInjective(d: nat, e: nat)
    requires d < 16 && e < 16
    requires HexDigit(d) == HexDigit(e)
    ensures d == e
  {
  }

  /** Different numbers have different hexadecimal texts. */
  lemma {:induction false} HexInjective(a: nat, b: nat)
    requires Hex(a) == Hex(b)
    ensures a == b
  {
    if a < 16 && b < 16 {
      HexDigitInjective(a, b);
    } else if a >= 16 && b >= 16 {
      var n := |Hex(a)| - 1;
      assert Hex(a)[n] == HexDigit(a % 16) && Hex(b)[n] == HexDigit(b % 16);
      HexDigitInjective(a % 16, b % 16);
      assert Hex(a / 16) == Hex(a)[..n] == Hex(b)[..n] == Hex(b / 16);
      HexInjective(a / 16, b / 16);
    }
  }

  /** Different addresses print differently, so the text identifies the function. */
  lemma {:induction false} PointerTextInjective(a: Address, b: Address)
    requires PointerText(a) == PointerText(b)
    ensures a == b
  {
    assert a == 0 <==> PointerText(a)[0] == '(';
    assert b == 0 <==> PointerText(b)[0] == '(';
    if a != 0 && b != 0 {
      assert Hex(a) == PointerText(a)[2..] == PointerText(b)[2..] == Hex(b);
      HexInjective(a, b);
    }
  }

  /** The line the destructor writes for one record, newline included. */
  function RecordLine(r: Record): string
  {
    Text.JoinWithSpaces([PointerText(r.addr), Text.Decimal(r.count), Text.Decimal(r.tag)]) + "\n"
  }

  /** The lines of one flush, in the order the records were emitted. */
  function RecordLines(records: seq<Record>): (lines: seq<string>)
    ensures |lines| == |records|
    ensures forall i :: 0 <= i < |records| ==> lines[i] == RecordLine(records[i])
  {
    if records == [] then [] else [RecordLine(records[0])] + RecordLines(records[1..])
  }
}
