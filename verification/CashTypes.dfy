/** Transaction outputs, unspent-output records and flagged cache entries. */
module CashTypes {
  import opened Options

  /** A 256-bit hash; the null hash is zero. */
  type uint256 = nat

  datatype OutPoint = OutPoint(hash: uint256, n: nat)

  type Script = seq<nat>

  const OP_RETURN: nat := 0x6a
  const MAX_SCRIPT_SIZE: nat := 10000
  /** Scripts of at most this many bytes are stored in place and own no heap memory. */
  const DIRECT_CAPACITY: nat := 28

  predicate IsUnspendable(s: Script) {
    (|s| > 0 && s[0] == OP_RETURN) || |s| > MAX_SCRIPT_SIZE
  }

  datatype TxOut = TxOut(value: int, script: Script)

  const NULL_TXOUT: TxOut := TxOut(-1, [])

  /** An unspent output. A null output marks the record as spent. */
  datatype Cash = Cash(out: TxOut, cashBase: bool, height: nat) {
    predicate IsSpent() {
      out.value == -1
    }

    /** Heap bytes owned by the script, as malloc on a 64-bit platform rounds them. */
    function MemoryUsage(): nat {
      if |out.script| <= DIRECT_CAPACITY then 0 else ((|out.script| + 31) / 16) * 16
    }

    /** What a reader of the record sees: nothing once it is spent. */
    function Visible(): Option<Cash> {
      if IsSpent() then None else Some(this)
    }
  }

  const EMPTY_CASH: Cash := Cash(NULL_TXOUT, false, 0)

  /** A cached record with its DIRTY and FRESH flags. */
  datatype Entry = Entry(cash: Cash, isDirty: bool, isFresh: bool)

  type CashMap = map<OutPoint, Entry>

  datatype TxIn = TxIn(prevout: OutPoint)

  /** A transaction; its identifier stands for the hash of its contents. */
  datatype Transaction = Transaction(id: uint256, vin: seq<TxIn>, vout: seq<TxOut>) {
    predicate IsCashBase() {
      |vin| == 1 && vin[0].prevout == OutPoint(0, 0xffff_ffff)
    }
  }

  // ---------------------------------------------------------------------
  // Total memory owned by the records of a map

  ghost function SumUsage(m: CashMap): nat {
    if m == map[] then 0
    else
      var o :| o in m;
      m[o].cash.MemoryUsage() + SumUsage(m - {o})
  }

  /** The sum does not depend on which record is taken out first. */
  lemma {:induction false} SumUsageSplit(m: CashMap, o: OutPoint)
    requires o in m
    ensures SumUsage(m) == m[o].cash.MemoryUsage() + SumUsage(m - {o})
    decreases |m|
  {
    var p :| p in m && SumUsage(m) == m[p].cash.MemoryUsage() + SumUsage(m - {p});
    if p != o {
      assert |m - {p}| < |m| by { MapRemoveSmaller(m, p); }
      assert |m - {o}| < |m| by { MapRemoveSmaller(m, o); }
      SumUsageSplit(m - {p}, o);
      SumUsageSplit(m - {o}, p);
      assert m - {p} - {o} == m - {o} - {p};
    }
  }

  lemma MapRemoveSmaller(m: CashMap, o: OutPoint)
    requires o in m
    ensures |m - {o}| == |m| - 1
  {
    assert (m - {o}).Keys == m.Keys - {o};
  }

  lemma SumUsageStore(m: CashMap, o: OutPoint, e: Entry)
    ensures SumUsage(m[o := e]) == SumUsage(m - {o}) + e.cash.MemoryUsage()
    ensures o in m ==> SumUsage(m[o := e]) == SumUsage(m) - m[o].cash.MemoryUsage() + e.cash.MemoryUsage()
    ensures o !in m ==> SumUsage(m[o := e]) == SumUsage(m) + e.cash.MemoryUsage()
  {
    SumUsageSplit(m[o := e], o);
    assert m[o := e] - {o} == m - {o};
    if o in m {
      SumUsageSplit(m, o);
    } else {
      assert m - {o} == m;
    }
  }
}
