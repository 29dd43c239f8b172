/** Decoded bases kept for later deltas: in RAM up to a cap, the overflow in spill files. */
module BaseStores {
  import opened Forest
  import opened Sequences

  type Bytes = seq<bv8>

  ghost function TotalBytes(m: map<Tid, Bytes>): nat {
    if m == map[] then 0
    else
      var t :| t in m;
      |m[t]| + TotalBytes(m - {t})
  }

  /** The total does not depend on the order in which the entries are taken. */
  lemma {:induction false} TotalWithout(m: map<Tid, Bytes>, t: Tid)
    requires t in m
    ensures TotalBytes(m) == |m[t]| + TotalBytes(m - {t})
    decreases |m|
  {
    var u :| u in m && TotalBytes(m) == |m[u]| + TotalBytes(m - {u});
    if u != t {
      assert |m - {u}| < |m| by { SmallerWithout(m, u); }
      assert |m - {t}| < |m| by { SmallerWithout(m, t); }
      TotalWithout(m - {u}, t);
      TotalWithout(m - {t}, u);
      assert (m - {u}) - {t} == (m - {t}) - {u};
    }
  }

  lemma TotalWith(m: map<Tid, Bytes>, t: Tid, data: Bytes)
    requires t !in m
    ensures TotalBytes(m[t := data]) == |data| + TotalBytes(m)
  {
    TotalWithout(m[t := data], t);
    assert m[t := data] - {t} == m;
  }

  class BaseStore {
    const ramBudget: int
    var ram: map<Tid, Bytes>
    var ramBytes: int
    // The spilled tids with the contents of their files. The spill directory belongs to one
    // run, so the files hold what this object wrote.
    var onDisk: map<Tid, Bytes>

    ghost predicate Valid()
      reads this
    {
      && ram.Keys !! onDisk.Keys
      && ramBytes == TotalBytes(ram)
      && (ram != map[] ==> ramBytes <= ramBudget)
    }

    /** What the store holds, wherever it is held. */
    ghost function View(): (v: map<Tid, Bytes>)
      reads this
    {
      ram + onDisk
    }

    constructor (ramBudget: int)
      ensures Valid() && View() == map[] && this.ramBudget == ramBudget
    {
      this.ramBudget := ramBudget;
      ram, ramBytes, onDisk := map[], 0, map[];
    }

    method Put(tid: Tid, data: Bytes)
      requires Valid() && tid !in View()
      modifies this
      ensures Valid() && View() == old(View())[tid := data]
      ensures
        if old(ramBytes) + |data| <= ramBudget then ram == old(ram)[tid := data] && onDisk == old(onDisk)
        else ram == old(ram) && onDisk == old(onDisk)[tid := data]
    {
      hide TotalBytes;
      if ramBytes + |data| <= ramBudget {
        TotalWith(ram, tid, data);
        ram := ram[tid := data];
        ramBytes := ramBytes + |data|;
      } else {
        onDisk := onDisk[tid := data];
      }
      assert View() == old(View())[tid := data];
    }

    method Get(tid: Tid) returns (r: Option<Bytes>)
      requires Valid()
      ensures r == if tid in View() then Some(View()[tid]) else None
    {
      if tid in ram {
        return Some(ram[tid]);
      }
      if tid in onDisk {
        return Some(onDisk[tid]);
      }
      return None;
    }

    method Drop(tid: Tid)
      requires Valid()
      modifies this
      ensures Valid() && View() == old(View()) - {tid}
      ensures ram == old(ram) - {tid} && onDisk == old(onDisk) - {tid}
    {
      if tid in ram {
        TotalWithout(ram, tid);
        ramBytes := ramBytes - |ram[tid]|;
        ram := ram - {tid};
      }
      if tid in onDisk {
        onDisk := onDisk - {tid};
      }
      assert ram == old(ram) - {tid};
      assert onDisk == old(onDisk) - {tid};
      assert View() == old(View()) - {tid};
    }

    method Clear()
      requires Valid()
      modifies this
      ensures Valid() && View() == map[] && ramBytes == 0
    {
      ram := map[];
      ramBytes := 0;
      var left := onDisk.Keys;
      while left != {}
        invariant left == onDisk.Keys && ram == map[] && Valid()
        decreases |left|
      {
        var tid :| tid in left;
        Drop(tid);
        left := left - {tid};
      }
    }
  }
}
