/** What the flags of the coin caches are for (coins.h, coins.cpp): coins that live shortly leave no trace below. */
module CoinsTraces {
  import opened Collections
  import opened Coins

  // ----- within one cache -----

  /** A new coin that is spent in the cache it was added to leaves the cache as it was. */
  lemma {:induction false} AddThenSpend(s: Stack, o: OutPoint, coin: Coin)
    requires s.Cache? && o !in s.entries && !IsSpent(coin)
    requires |coin.out.script| <= 10000 && (coin.out.script != [] ==> coin.out.script[0] != 0x6a)
    ensures AddCoin(s, o, coin, false).Some?
    ensures SpendCoin(AddCoin(s, o, coin, false).value, o) == (s, Some(coin))
  {
    var t := AddCoin(s, o, coin, false).value;
    assert t.entries - {o} == s.entries;
  }

  /** An added coin is DIRTY, and FRESH exactly if the entry was FRESH before or, without overwriting, not DIRTY;
      nothing else changes. */
  lemma {:induction false} AddedFlags(s: Stack, o: OutPoint, coin: Coin, overwrite: bool)
    requires s.Cache? && !IsSpent(coin) && !IsUnspendable(coin.out.script)
    ensures var r := AddCoin(s, o, coin, overwrite);
      r.Some? ==>
        && r.value.Cache? && r.value.below == s.below
        && o in r.value.entries && r.value.entries - {o} == s.entries - {o}
        && r.value.entries[o].coin == coin && r.value.entries[o].isDirty
        && (r.value.entries[o].isFresh <==>
             (o in s.entries && s.entries[o].isFresh) || (!overwrite && !(o in s.entries && s.entries[o].isDirty)))
  {
  }

  /** Spending drops a FRESH entry, and keeps any other as a spent, DIRTY one for the view below. */
  lemma {:induction false} SpentEntry(s: Stack, o: OutPoint)
    requires s.Cache? && o in s.entries
    ensures var (t, r) := SpendCoin(s, o);
      && r == Some(s.entries[o].coin) && t.Cache? && t.below == s.below && t.entries - {o} == s.entries - {o}
      && (o in t.entries <==> !s.entries[o].isFresh)
      && (o in t.entries ==> IsSpent(t.entries[o].coin) && t.entries[o].isDirty && !t.entries[o].isFresh)
  {
  }

  /** Uncaching drops an entry exactly if neither flag is set. */
  lemma {:induction false} UncachedEntry(s: Stack, o: OutPoint)
    requires s.Cache?
    ensures var t := Uncache(s, o);
      && t.Cache? && t.below == s.below && t.entries - {o} == s.entries - {o}
      && (o in t.entries <==> o in s.entries && (s.entries[o].isDirty || s.entries[o].isFresh))
      && (o in t.entries ==> t.entries[o] == s.entries[o])
  {
    if o !in s.entries {
      assert s.entries - {o} == s.entries;
    }
  }

  /** Coins that can never be spent are not added: those whose script starts with OP_RETURN or is too long. */
  lemma {:induction false} UnspendableIgnored(s: Stack, o: OutPoint, coin: Coin, overwrite: bool)
    requires s.Cache? && !IsSpent(coin)
    requires |coin.out.script| > 10000 || (coin.out.script != [] && coin.out.script[0] == 0x6a)
    ensures AddCoin(s, o, coin, overwrite) == Some(s)
  {
  }

  // ----- reading -----

  /** What is read is cached: the entry is there if the view has the coin, reading again changes nothing, and entries
      that were there stay. */
  lemma {:induction false} ReadsAreCached(s: Stack, o: OutPoint)
    requires s.Cache? && Coherent(s)
    ensures var t := GetCoin(s, o).0;
      && t.Cache? && GetCoin(t, o).0 == t
      && (ViewAt(s, o).Some? ==> o in t.entries && t.entries[o].coin == ViewAt(s, o).value)
      && (forall x :: x in s.entries ==> x in t.entries && t.entries[x] == s.entries[x])
      && (forall x :: x in t.entries ==> x in s.entries || x == o)
      && (o !in s.entries && o in t.entries ==>
           !t.entries[o].isDirty && (t.entries[o].isFresh <==> IsSpent(t.entries[o].coin)))
    decreases s
  {
    FetchCoinKeeps(s, o);
    if o !in s.entries && s.below.Cache? {
      GetCoinKeeps(s.below, o);
      ReadsAreCached(s.below, o);
    }
  }

  // ----- between caches -----

  /** A FRESH coin that is written to a parent without an entry is FRESH there, so that a child that spends it later,
      and writes that, leaves the parent as it was. */
  lemma {:induction false} WrittenThenSpent(
    parent: map<OutPoint, Entry>, child: map<OutPoint, Entry>, later: map<OutPoint, Entry>, o: OutPoint)
    requires o !in parent && o in child && child[o].isDirty && child[o].isFresh && !IsSpent(child[o].coin)
    requires o in later && later[o].isDirty && IsSpent(later[o].coin)
    ensures var p := Merged(parent, child);
      && o in p && p[o] == Entry(child[o].coin, true, true)
      && !Misapplied(parent, child, o)
      && o !in Merged(p, later)
  {
    assert MergedAt(parent, child, o).Some?;
    assert MergedAt(Merged(parent, child), later, o).None?;
  }

  /** Entries that are not DIRTY are not written, and a FRESH one that is spent is not either. */
  lemma {:induction false} NotWritten(parent: map<OutPoint, Entry>, child: map<OutPoint, Entry>, o: OutPoint)
    requires o in child
    requires !child[o].isDirty || (o !in parent && child[o].isFresh && IsSpent(child[o].coin))
    ensures o in Merged(parent, child) <==> o in parent
    ensures o in parent ==> Merged(parent, child)[o] == parent[o]
  {
    assert MergedAt(parent, child, o) == Lookup(parent, o);
  }

  /** Writing a DIRTY entry onto one of the parent keeps the parent's FRESH flag, not the child's. */
  lemma {:induction false} WrittenOver(parent: map<OutPoint, Entry>, child: map<OutPoint, Entry>, o: OutPoint)
    requires o in child && o in parent && child[o].isDirty && (!parent[o].isFresh || !IsSpent(child[o].coin))
    ensures o in Merged(parent, child)
    ensures Merged(parent, child)[o] == Entry(child[o].coin, true, parent[o].isFresh)
  {
    assert MergedAt(parent, child, o).Some?;
  }
}
