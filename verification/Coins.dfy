/**
 * The coin views of coins.h and coins.cpp: write-back caches stacked on a coin store,
 * and the plain outpoint-to-coin maps they stand for.
 */
module Coins {
  import opened Collections

  datatype TxOut = TxOut(value: int, script: seq<nat>)

  datatype OutPoint = OutPoint(hash: nat, n: nat)

  datatype Coin = Coin(out: TxOut, coinBase: bool, height: nat, time: nat)

  /** A CCoinsCacheEntry with the DIRTY and FRESH bits of its flags. */
  datatype Entry = Entry(coin: Coin, isDirty: bool, isFresh: bool)

  /** A coin store, whose lookups may also report spent coins, or a cache on top of another view. */
  datatype Stack =
    | Store(coins: map<OutPoint, Coin>)
    | Cache(entries: map<OutPoint, Entry>, below: Stack)

  const NullCoin := Coin(TxOut(-1, []), false, 0, 0)
  const OP_RETURN := 0x6a
  const MAX_SCRIPT_SIZE := 10000

  predicate IsSpent(c: Coin) {
    c.out.value == -1
  }

  predicate IsUnspendable(script: seq<nat>) {
    (|script| > 0 && script[0] == OP_RETURN) || |script| > MAX_SCRIPT_SIZE
  }

  function Lookup<K, V>(m: map<K, V>, k: K): Option<V> {
    if k in m then Some(m[k]) else None
  }

  // ----- the operations -----

  /** GetCoin: the filled stack and the coin found, if the call returns true. */
  function GetCoin(s: Stack, o: OutPoint): (Stack, Option<Coin>)
    decreases s, 1
  {
    match s
    case Store(coins) => (s, Lookup(coins, o))
    case Cache(_, _) =>
      var t := FetchCoin(s, o);
      (t, if o in t.entries && !IsSpent(t.entries[o].coin) then Some(t.entries[o].coin) else None)
  }

  /** FetchCoin: afterwards the entry for `o` is cached, unless the view below has none. */
  function FetchCoin(s: Stack, o: OutPoint): (t: Stack)
    requires s.Cache?
    ensures t.Cache?
    decreases s, 0
  {
    if o in s.entries then s else
      var (below, found) := GetCoin(s.below, o);
      match found
      case None => Cache(s.entries, below)
      case Some(coin) => Cache(s.entries[o := Entry(coin, false, IsSpent(coin))], below)
  }

  /** AddCoin; None is the logic error "replaces non-pruned entry". */
  function AddCoin(s: Stack, o: OutPoint, coin: Coin, overwrite: bool): Option<Stack>
    requires s.Cache? && !IsSpent(coin)
  {
    if IsUnspendable(coin.out.script) then Some(s) else
      var e := if o in s.entries then s.entries[o] else Entry(NullCoin, false, false);
      if !overwrite && !IsSpent(e.coin) then None else
        var isFresh := e.isFresh || (!overwrite && !e.isDirty);
        Some(Cache(s.entries[o := Entry(coin, true, isFresh)], s.below))
  }

  /** SpendCoin: the new stack and the coin moved out, if the call returns true. */
  function SpendCoin(s: Stack, o: OutPoint): (Stack, Option<Coin>)
    requires s.Cache?
  {
    var t := FetchCoin(s, o);
    if o !in t.entries then (t, None) else
      var e := t.entries[o];
      (Cache(if e.isFresh then t.entries - {o} else t.entries[o := Entry(NullCoin, true, false)], t.below),
        Some(e.coin))
  }

  function Uncache(s: Stack, o: OutPoint): Stack
    requires s.Cache?
  {
    if o in s.entries && !s.entries[o].isDirty && !s.entries[o].isFresh then Cache(s.entries - {o}, s.below) else s
  }

  /** What BatchWrite makes of the parent's entry `p` on the child's dirty entry `e`. */
  function MergeEntry(p: Option<Entry>, e: Entry): Option<Entry> {
    match p
    case None => if e.isFresh && IsSpent(e.coin) then None else Some(Entry(e.coin, true, e.isFresh))
    case Some(q) => if q.isFresh && IsSpent(e.coin) then None else Some(Entry(e.coin, true, q.isFresh))
  }

  function MergedAt(parent: map<OutPoint, Entry>, child: map<OutPoint, Entry>, o: OutPoint): Option<Entry> {
    if o in child && child[o].isDirty then MergeEntry(Lookup(parent, o), child[o]) else Lookup(parent, o)
  }

  function Merged(parent: map<OutPoint, Entry>, child: map<OutPoint, Entry>): map<OutPoint, Entry> {
    map o | o in parent.Keys + child.Keys && MergedAt(parent, child, o).Some? :: MergedAt(parent, child, o).value
  }

  /** The logic error "FRESH flag misapplied". */
  predicate Misapplied(parent: map<OutPoint, Entry>, child: map<OutPoint, Entry>, o: OutPoint) {
    o in child && o in parent && child[o].isDirty && child[o].isFresh && !IsSpent(parent[o].coin)
  }

  /** A store takes every dirty entry; it may drop a spent one or, for `o` in `keep`, hold it as spent. */
  function StoredAt(
    coins: map<OutPoint, Coin>, child: map<OutPoint, Entry>, keep: set<OutPoint>, o: OutPoint): Option<Coin> {
    if o !in child || !child[o].isDirty then Lookup(coins, o)
    else if IsSpent(child[o].coin) && o !in keep then None
    else Some(child[o].coin)
  }

  function Stored(coins: map<OutPoint, Coin>, child: map<OutPoint, Entry>, keep: set<OutPoint>): map<OutPoint, Coin> {
    map o | o in coins.Keys + child.Keys && StoredAt(coins, child, keep, o).Some? ::
      StoredAt(coins, child, keep, o).value
  }

  /** Flush; None is the logic error thrown by BatchWrite. */
  function Flush(s: Stack, keep: set<OutPoint>): Option<Stack>
    requires s.Cache?
  {
    match s.below
    case Store(coins) => Some(Cache(map[], Store(Stored(coins, s.entries, keep))))
    case Cache(parent, below) =>
      if exists o | o in s.entries :: Misapplied(parent, s.entries, o) then None
      else Some(Cache(map[], Cache(Merged(parent, s.entries), below)))
  }

  // ----- what a stack stands for -----

  function Visible(c: Coin): Option<Coin> {
    if IsSpent(c) then None else Some(c)
  }

  /** The unspent coin the view shows at `o`. */
  function ViewAt(s: Stack, o: OutPoint): Option<Coin> {
    match s
    case Store(coins) => if o in coins then Visible(coins[o]) else None
    case Cache(entries, below) => if o in entries then Visible(entries[o].coin) else ViewAt(below, o)
  }

  /** The plain map from outpoints to unspent coins. */
  ghost function View(s: Stack): imap<OutPoint, Coin> {
    imap o | ViewAt(s, o).Some? :: ViewAt(s, o).value
  }

  /** The plain maps of all views of the stack, the top one first. */
  ghost function Views(s: Stack): (r: seq<imap<OutPoint, Coin>>)
    ensures |r| == Height(s) + 1 && r[0] == View(s)
  {
    if s.Store? then [View(s)] else [View(s)] + Views(s.below)
  }

  /** The number of caches. */
  function Height(s: Stack): nat {
    if s.Store? then 0 else 1 + Height(s.below)
  }

  /** FRESH: the parent view has no unspent coin. Not DIRTY: the parent view shows the same. */
  predicate FlagsMean(e: Entry, parent: Option<Coin>) {
    (e.isFresh ==> parent == None) && (!e.isDirty ==> Visible(e.coin) == parent)
  }

  predicate EntryOk(entries: map<OutPoint, Entry>, below: Stack, o: OutPoint)
    requires o in entries
  {
    FlagsMean(entries[o], ViewAt(below, o))
  }

  ghost predicate Coherent(s: Stack) {
    s.Cache? ==>
      && Coherent(s.below)
      && forall o {:trigger EntryOk(s.entries, s.below, o)} :: o in s.entries ==> EntryOk(s.entries, s.below, o)
  }

  ghost predicate SameView(s: Stack, t: Stack) {
    forall o {:trigger ViewAt(t, o)} :: ViewAt(t, o) == ViewAt(s, o)
  }

  lemma {:induction false} SameViews(s: Stack, t: Stack)
    requires SameView(s, t)
    ensures View(s) == View(t)
  {
    forall o
      ensures ViewAt(s, o) == ViewAt(t, o)
    {
    }
  }

  /** Replacing the view below by one that shows the same keeps a cache coherent. */
  lemma {:induction false} Rebase(entries: map<OutPoint, Entry>, below: Stack, below': Stack)
    requires Coherent(Cache(entries, below)) && Coherent(below') && SameView(below, below')
    ensures Coherent(Cache(entries, below')) && SameView(Cache(entries, below), Cache(entries, below'))
  {
    forall o | o in entries
      ensures EntryOk(entries, below', o)
    {
      assert EntryOk(Cache(entries, below).entries, Cache(entries, below).below, o);
    }
    forall o
      ensures ViewAt(Cache(entries, below'), o) == ViewAt(Cache(entries, below), o)
    {
      assert ViewAt(below', o) == ViewAt(below, o);
    }
  }

  /** Changing one entry of a coherent cache to one whose flags tell the truth. */
  lemma {:induction false} SetEntry(s: Stack, o: OutPoint, e: Entry)
    requires s.Cache? && Coherent(s) && FlagsMean(e, ViewAt(s.below, o))
    ensures Coherent(Cache(s.entries[o := e], s.below))
  {
    var entries := s.entries[o := e];
    forall x | x in entries
      ensures EntryOk(entries, s.below, x)
    {
      assert x != o ==> EntryOk(s.entries, s.below, x);
    }
  }

  lemma {:induction false} DropEntry(s: Stack, o: OutPoint)
    requires s.Cache? && Coherent(s)
    ensures Coherent(Cache(s.entries - {o}, s.below))
  {
    var entries := s.entries - {o};
    forall x | x in entries
      ensures EntryOk(entries, s.below, x)
    {
      assert EntryOk(s.entries, s.below, x);
    }
  }

  /** Filling the caches changes no view, and finds what the view shows. */
  lemma {:induction false} GetCoinKeeps(s: Stack, o: OutPoint)
    requires Coherent(s)
    ensures var (t, r) := GetCoin(s, o);
      && Coherent(t) && Views(t) == Views(s) && SameView(s, t)
      && (match r case None => ViewAt(s, o) == None case Some(c) => ViewAt(s, o) == Visible(c))
      && (s.Cache? ==> r == ViewAt(s, o))
    decreases s, 1
  {
    if s.Cache? {
      FetchCoinKeeps(s, o);
    }
  }

  lemma {:induction false} FetchCoinKeeps(s: Stack, o: OutPoint)
    requires s.Cache? && Coherent(s)
    ensures var t := FetchCoin(s, o);
      && Coherent(t) && Views(t) == Views(s) && SameView(s, t)
      && (o in t.entries ==> Visible(t.entries[o].coin) == ViewAt(s, o))
      && (o !in t.entries ==> ViewAt(s, o) == None)
    decreases s, 0
  {
    if o !in s.entries {
      GetCoinKeeps(s.below, o);
      var (below, found) := GetCoin(s.below, o);
      Rebase(s.entries, s.below, below);
      var u := Cache(s.entries, below);
      var t := FetchCoin(s, o);
      if found.Some? {
        assert ViewAt(below, o) == ViewAt(s.below, o);
        SetEntry(u, o, Entry(found.value, false, IsSpent(found.value)));
        forall x
          ensures ViewAt(t, x) == ViewAt(s, x)
        {
          assert ViewAt(u, x) == ViewAt(s, x);
        }
      }
      SameViews(s, t);
    }
  }

  /**
   * AddCoin adds the coin to the plain map, keeps the flags truthful and does not throw,
   * exactly if the coin is unspendable (and ignored), overwriting is allowed, or the outpoint is absent.
   */
  lemma {:induction false} AddCoinSound(s: Stack, o: OutPoint, coin: Coin, overwrite: bool)
    requires s.Cache? && Coherent(s) && !IsSpent(coin)
    ensures var r := AddCoin(s, o, coin, overwrite);
      (r.Some? && Coherent(r.value)) <==> (IsUnspendable(coin.out.script) || overwrite || ViewAt(s, o) == None)
    ensures var r := AddCoin(s, o, coin, overwrite);
      r.Some? ==>
        && r.value.Cache?
        && View(r.value) == (if IsUnspendable(coin.out.script) then View(s) else View(s)[o := coin])
        && Views(r.value)[1..] == Views(s)[1..]
  {
    var r := AddCoin(s, o, coin, overwrite);
    if !IsUnspendable(coin.out.script) {
      assert o in s.entries ==> EntryOk(s.entries, s.below, o);
      if r.Some? {
        var e := r.value.entries[o];
        if overwrite || ViewAt(s, o) == None {
          SetEntry(s, o, e);
        } else {
          assert !EntryOk(r.value.entries, r.value.below, o);
        }
        AddedView(s, o, e, coin);
      }
    }
  }

  lemma {:induction false} AddedView(s: Stack, o: OutPoint, e: Entry, coin: Coin)
    requires s.Cache? && e.coin == coin && !IsSpent(coin)
    ensures View(Cache(s.entries[o := e], s.below)) == View(s)[o := coin]
  {
    var t := Cache(s.entries[o := e], s.below);
    forall x
      ensures ViewAt(t, x) == if x == o then Some(coin) else ViewAt(s, x)
    {
    }
  }

  lemma {:induction false} SpentView(s: Stack, t: Stack, o: OutPoint)
    requires forall x {:trigger ViewAt(t, x)} :: ViewAt(t, x) == if x == o then None else ViewAt(s, x)
    ensures View(t) == View(s) - {o}
  {
    forall x
      ensures ViewAt(t, x) == if x == o then None else ViewAt(s, x)
    {
    }
  }

  /** SpendCoin removes the outpoint from the plain map, and hands out its coin if there was one. */
  lemma {:induction false} SpendCoinSound(s: Stack, o: OutPoint)
    requires s.Cache? && Coherent(s)
    ensures var (t, r) := SpendCoin(s, o);
      && t.Cache? && Coherent(t) && View(t) == View(s) - {o} && Views(t)[1..] == Views(s)[1..]
      && (o in View(s) ==> r == Some(View(s)[o]))
      && (o !in View(s) ==> r == None || IsSpent(r.value))
  {
    FetchCoinKeeps(s, o);
    var u := FetchCoin(s, o);
    var (t, r) := SpendCoin(s, o);
    if o in u.entries {
      assert EntryOk(u.entries, u.below, o);
      if u.entries[o].isFresh {
        DropEntry(u, o);
      } else {
        SetEntry(u, o, Entry(NullCoin, true, false));
      }
    }
    forall x
      ensures ViewAt(t, x) == if x == o then None else ViewAt(s, x)
    {
      assert ViewAt(u, x) == ViewAt(s, x);
    }
    SpentView(s, t, o);
  }

  lemma {:induction false} UncacheKeeps(s: Stack, o: OutPoint)
    requires s.Cache? && Coherent(s)
    ensures var t := Uncache(s, o); Coherent(t) && Views(t) == Views(s) && SameView(s, t)
  {
    var t := Uncache(s, o);
    DropEntry(s, o);
    forall x
      ensures ViewAt(t, x) == ViewAt(s, x)
    {
      assert x in s.entries ==> EntryOk(s.entries, s.below, x);
    }
    SameViews(s, t);
  }

  /** BatchWrite into a parent cache: what the parent then shows, and its flags. */
  lemma {:induction false} MergedEntry(
    parent: map<OutPoint, Entry>, child: map<OutPoint, Entry>, below: Stack, o: OutPoint)
    requires Coherent(Cache(child, Cache(parent, below)))
    ensures !Misapplied(parent, child, o)
    ensures ViewAt(Cache(Merged(parent, child), below), o) == ViewAt(Cache(child, Cache(parent, below)), o)
    ensures o in Merged(parent, child) ==> EntryOk(Merged(parent, child), below, o)
  {
    var top := Cache(child, Cache(parent, below));
    assert o in child ==> EntryOk(top.entries, top.below, o);
    assert o in parent ==> EntryOk(top.below.entries, top.below.below, o);
  }

  lemma {:induction false} StoredEntry(
    coins: map<OutPoint, Coin>, child: map<OutPoint, Entry>, keep: set<OutPoint>, o: OutPoint)
    requires Coherent(Cache(child, Store(coins)))
    ensures ViewAt(Store(Stored(coins, child, keep)), o) == ViewAt(Cache(child, Store(coins)), o)
  {
    var top := Cache(child, Store(coins));
    assert o in child ==> EntryOk(top.entries, top.below, o);
  }

  /** Flush never throws, leaves the top view alone and makes the parent's view equal to it. */
  lemma {:induction false} FlushSound(s: Stack, keep: set<OutPoint>)
    requires s.Cache? && Coherent(s)
    ensures var r := Flush(s, keep);
      && r.Some? && r.value.Cache? && Coherent(r.value) && SameView(s, r.value) && SameView(s, r.value.below)
      && Views(r.value) == Views(s)[1 := View(s)]
  {
    match s.below
    case Store(coins) =>
      var t := Flush(s, keep).value;
      forall o
        ensures ViewAt(t, o) == ViewAt(s, o) && ViewAt(t.below, o) == ViewAt(s, o)
      {
        StoredEntry(coins, s.entries, keep, o);
      }
      SameViews(s, t);
      SameViews(s, t.below);
    case Cache(parent, below) =>
      forall o
        ensures !Misapplied(parent, s.entries, o)
      {
        MergedEntry(parent, s.entries, below, o);
      }
      var t := Flush(s, keep).value;
      forall o
        ensures ViewAt(t, o) == ViewAt(s, o) && ViewAt(t.below, o) == ViewAt(s, o)
        ensures o in t.below.entries ==> EntryOk(t.below.entries, t.below.below, o)
      {
        MergedEntry(parent, s.entries, below, o);
      }
      SameViews(s, t);
      SameViews(s, t.below);
  }

  // ----- runs -----

  /** Reads, Uncache and Flush may happen at any cache of the stack, counted from the top; changes only at the top. */
  datatype Op =
    | Get(depth: nat, o: OutPoint)
    | Drop(depth: nat, o: OutPoint)
    | Write(depth: nat, keep: set<OutPoint>)
    | Add(o: OutPoint, coin: Coin, overwrite: bool)
    | Spend(o: OutPoint)
    | Push
    | Pop

  /** `op` one cache further down. */
  function Deeper(op: Op): Op
    requires (op.Get? || op.Drop? || op.Write?) && op.depth > 0
  {
    match op
    case Get(d, o) => Get(d - 1, o)
    case Drop(d, o) => Drop(d - 1, o)
    case Write(d, keep) => Write(d - 1, keep)
  }

  predicate Permitted(s: Stack, op: Op) {
    match op
    case Get(d, _) => d < Height(s)
    case Drop(d, _) => d < Height(s)
    case Write(d, _) => d < Height(s)
    case Add(o, coin, overwrite) =>
      s.Cache? && !IsSpent(coin) && (IsUnspendable(coin.out.script) || overwrite || ViewAt(s, o) == None)
    case Spend(_) => s.Cache?
    case Push => true
    case Pop => s.Cache?
  }

  /** The stack after `op`; None if the operation throws. */
  function Apply(s: Stack, op: Op): Option<Stack>
    requires Permitted(s, op)
    decreases s
  {
    if (op.Get? || op.Drop? || op.Write?) && op.depth > 0 then
      match Apply(s.below, Deeper(op))
      case None => None
      case Some(below) => Some(Cache(s.entries, below))
    else
      match op
      case Get(_, o) => Some(GetCoin(s, o).0)
      case Drop(_, o) => Some(Uncache(s, o))
      case Write(_, keep) => Flush(s, keep)
      case Add(o, coin, overwrite) => AddCoin(s, o, coin, overwrite)
      case Spend(o) => Some(SpendCoin(s, o).0)
      case Push => Some(Cache(map[], s))
      case Pop => Some(s.below)
  }

  /** The same operation on plain maps, one whole map for each view, the top one first. */
  ghost function Meaning(views: seq<imap<OutPoint, Coin>>, op: Op): seq<imap<OutPoint, Coin>>
    requires views != [] && (op.Pop? ==> |views| > 1) && (op.Write? ==> op.depth + 1 < |views|)
  {
    match op
    case Get(_, _) => views
    case Drop(_, _) => views
    case Write(d, _) => views[d + 1 := views[d]]
    case Add(o, coin, _) => if IsUnspendable(coin.out.script) then views else views[0 := views[0][o := coin]]
    case Spend(o) => views[0 := views[0] - {o}]
    case Push => [views[0]] + views
    case Pop => views[1..]
  }

  lemma {:induction false} PushKeeps(s: Stack)
    requires Coherent(s)
    ensures Coherent(Cache(map[], s)) && Views(Cache(map[], s)) == [View(s)] + Views(s)
  {
    var t := Cache(map[], s);
    forall o
      ensures ViewAt(t, o) == ViewAt(s, o)
    {
    }
    SameViews(s, t);
  }

  /** Every permitted operation succeeds, keeps the flags truthful and acts on the plain maps. */
  lemma {:induction false} ApplySound(s: Stack, op: Op)
    requires Coherent(s) && Permitted(s, op)
    ensures Apply(s, op).Some? && Coherent(Apply(s, op).value)
    ensures Views(Apply(s, op).value) == Meaning(Views(s), op)
    ensures (op.Get? || op.Drop? || op.Write?) ==> SameView(s, Apply(s, op).value)
    decreases s
  {
    if (op.Get? || op.Drop? || op.Write?) && op.depth > 0 {
      ApplySound(s.below, Deeper(op));
      Rebase(s.entries, s.below, Apply(s.below, Deeper(op)).value);
      SameViews(s, Apply(s, op).value);
    } else {
      match op
      case Get(_, o) => GetCoinKeeps(s, o);
      case Drop(_, o) => UncacheKeeps(s, o);
      case Write(_, keep) => FlushSound(s, keep);
      case Add(o, coin, overwrite) => AddCoinSound(s, o, coin, overwrite);
      case Spend(o) => SpendCoinSound(s, o);
      case Push => PushKeeps(s);
      case Pop =>
    }
  }

  /** `stacks` are the states of a run of permitted `ops`, up to the first that throws. */
  ghost predicate IsRun(ops: seq<Op>, stacks: seq<Stack>) {
    && |stacks| == |ops| + 1
    && forall i {:trigger RunStep(ops, stacks, i)} :: 0 <= i < |ops| ==> RunStep(ops, stacks, i)
  }

  ghost predicate RunStep(ops: seq<Op>, stacks: seq<Stack>, i: nat)
    requires i < |ops| && |stacks| == |ops| + 1
  {
    && Permitted(stacks[i], ops[i])
    && (Apply(stacks[i], ops[i]).Some? ==> stacks[i + 1] == Apply(stacks[i], ops[i]).value)
  }

  /** The plain maps after `ops`. */
  ghost function Expected(views: seq<imap<OutPoint, Coin>>, ops: seq<Op>): Option<seq<imap<OutPoint, Coin>>> {
    if ops == [] then Some(views) else
      var last := ops[|ops| - 1];
      match Expected(views, ops[..|ops| - 1])
      case None => None
      case Some(v) =>
        if v != [] && (last.Pop? ==> |v| > 1) && (last.Write? ==> last.depth + 1 < |v|) then Some(Meaning(v, last))
          else None
  }

  /** No run throws, and every run refines the run on plain maps. */
  lemma {:induction false} EveryRunRefines(ops: seq<Op>, stacks: seq<Stack>, n: nat)
    requires IsRun(ops, stacks) && Coherent(stacks[0]) && n <= |ops|
    ensures Coherent(stacks[n]) && Expected(Views(stacks[0]), ops[..n]) == Some(Views(stacks[n]))
    ensures n < |ops| ==> Permitted(stacks[n], ops[n]) && Apply(stacks[n], ops[n]).Some?
  {
    if n > 0 {
      EveryRunRefines(ops, stacks, n - 1);
      assert RunStep(ops, stacks, n - 1);
      ApplySound(stacks[n - 1], ops[n - 1]);
      assert ops[..n][..n - 1] == ops[..n - 1];
    }
    if n < |ops| {
      assert RunStep(ops, stacks, n);
      ApplySound(stacks[n], ops[n]);
    }
  }
}
