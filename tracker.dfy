/**
  The rolling top-20 tracker of healthy.py: PIDStatsCollector keeps, for each
  of cpu, mem, net and io, a dict from key record to the list of its last
  num_samples usages. collect_top_20 sorts the snapshot in place, records the
  usage of the first 20 records, appends 0 to every other tracked key, and
  returns the 20 histories of largest sum.

  A dict is modelled by the class History: its keys in insertion order (the
  record object stored with each key is the first one inserted) and a map
  from the key identity KeyOf(mode, record) to the history list.
 */
module Tracker {
  import opened ProcStat
  import opened Sorting

  /** One item of the dict: the stored key record and its history. */
  datatype Usage = Usage(stat: Stat, samples: seq<real>)

  /** The identity of each record of xs, as __eq__ and __hash__ compare them. */
  function KeySet(mode: GroupMode, xs: seq<Stat>): set<Key> {
    set i | 0 <= i < |xs| :: KeyOf(mode, xs[i])
  }

  /** No two records of xs are equal as dict keys. */
  predicate KeysDistinct(mode: GroupMode, xs: seq<Stat>) {
    forall i, j | 0 <= i < j < |xs| :: KeyOf(mode, xs[i]) != KeyOf(mode, xs[j])
  }

  /** keys and buffers describe one dict: one history per stored key. */
  predicate Tracks(mode: GroupMode, keys: seq<Stat>, buffers: map<Key, seq<real>>) {
    KeysDistinct(mode, keys) && buffers.Keys == KeySet(mode, keys)
  }

  /** Every history holds exactly n samples. */
  predicate Filled(buffers: map<Key, seq<real>>, n: nat) {
    forall k | k in buffers :: |buffers[k]| == n
  }

  /** [0] * n */
  function Zeros(n: nat): (r: seq<real>)
    ensures |r| == n
    ensures forall i | 0 <= i < n :: r[i] == 0.0
  {
    seq(n, i => 0.0)
  }

  /** buf.append(v), then buf.pop(0) when the list has grown past n. */
  function Push(buf: seq<real>, v: real, n: nat): (r: seq<real>)
  {
    if |buf| + 1 > n then (buf + [v])[1..] else buf + [v]
  }

  /** On a full history, Push drops the oldest sample and puts v last, keeping the length. */
  lemma PushFull(buf: seq<real>, v: real, n: nat)
    requires |buf| == n
    ensures |Push(buf, v, n)| == n
    ensures n > 0 ==> Push(buf, v, n) == buf[1..] + [v]
  {
    if n > 0 {
      assert (buf + [v])[1..] == buf[1..] + [v];
    }
  }

  /** The tracker state a dict stands for. */
  datatype Tracked = Tracked(keys: seq<Stat>, buffers: map<Key, seq<real>>)

  /**
    The first loop of collect_top_20 over the records top: a record whose key
    is not yet tracked is inserted with [0] * n, and then its usage is pushed.
   */
  function Record(mode: GroupMode, keys: seq<Stat>, buffers: map<Key, seq<real>>, top: seq<Stat>, dim: Dimension, n: nat): Tracked
    decreases |top|
  {
    if top == [] then Tracked(keys, buffers)
    else
      var t := Record(mode, keys, buffers, top[..|top| - 1], dim, n);
      var s := top[|top| - 1];
      var k := KeyOf(mode, s);
      var u := if k in t.buffers then t else Tracked(t.keys + [s], t.buffers[k := Zeros(n)]);
      Tracked(u.keys, u.buffers[k := Push(u.buffers[k], UsageOf(s, dim), n)])
  }

  /** The second loop of collect_top_20, stated without its order: every history whose key is not in top gets a 0 pushed. */
  function Age(buffers: map<Key, seq<real>>, topKeys: set<Key>, n: nat): (r: map<Key, seq<real>>)
    ensures r.Keys == buffers.Keys
  {
    map k | k in buffers :: if k in topKeys then buffers[k] else Push(buffers[k], 0.0, n)
  }

  /** The dict after collect_top_20, given the first 20 records of the sorted snapshot. */
  function Collect(mode: GroupMode, keys: seq<Stat>, buffers: map<Key, seq<real>>, top: seq<Stat>, dim: Dimension, n: nat): Tracked {
    var t := Record(mode, keys, buffers, top, dim, n);
    Tracked(t.keys, Age(t.buffers, KeySet(mode, top), n))
  }

  /** The second loop of collect_top_20 in its own order: over keys, pushing 0 to each history whose key is not in topKeys. */
  function AgeInOrder(mode: GroupMode, keys: seq<Stat>, buffers: map<Key, seq<real>>, topKeys: set<Key>, n: nat): (r: map<Key, seq<real>>)
    ensures r.Keys == buffers.Keys
    decreases |keys|
  {
    if keys == [] then buffers
    else
      var b := AgeInOrder(mode, keys[..|keys| - 1], buffers, topKeys, n);
      var k := KeyOf(mode, keys[|keys| - 1]);
      if k in topKeys || k !in b then b else b[k := Push(b[k], 0.0, n)]
  }

  /** One more visited key: the second loop's step on keys[j]. */
  lemma AgeInOrderStep(mode: GroupMode, keys: seq<Stat>, j: nat, buffers: map<Key, seq<real>>, topKeys: set<Key>, n: nat)
    requires j < |keys|
    ensures var b := AgeInOrder(mode, keys[..j], buffers, topKeys, n);
      var k := KeyOf(mode, keys[j]);
      AgeInOrder(mode, keys[..j + 1], buffers, topKeys, n)
        == if k in topKeys || k !in b then b else b[k := Push(b[k], 0.0, n)]
  {
    assert keys[..j + 1][..j] == keys[..j];
  }

  /** The identities of xs + [x]: those of xs and that of x. */
  lemma KeySetSnoc(mode: GroupMode, xs: seq<Stat>, x: Stat)
    ensures KeySet(mode, xs + [x]) == KeySet(mode, xs) + {KeyOf(mode, x)}
  {
    var ys := xs + [x];
    forall k | k in KeySet(mode, ys) ensures k in KeySet(mode, xs) + {KeyOf(mode, x)} {
      var i :| 0 <= i < |ys| && KeyOf(mode, ys[i]) == k;
      if i < |xs| {
        assert ys[i] == xs[i];
      }
    }
    forall k | k in KeySet(mode, xs) ensures k in KeySet(mode, ys) {
      var i :| 0 <= i < |xs| && KeyOf(mode, xs[i]) == k;
      assert ys[i] == xs[i];
    }
    assert ys[|xs|] == x;
  }

  /** Dropping the last record keeps the others distinct and the last one apart from them. */
  lemma DistinctInit(mode: GroupMode, xs: seq<Stat>)
    requires xs != [] && KeysDistinct(mode, xs)
    ensures KeysDistinct(mode, xs[..|xs| - 1])
    ensures KeyOf(mode, xs[|xs| - 1]) !in KeySet(mode, xs[..|xs| - 1])
  {
  }

  /** Visiting distinct keys one by one ages exactly the histories of the visited keys outside topKeys. */
  lemma {:induction false} AgeInOrderIsAge(mode: GroupMode, keys: seq<Stat>, buffers: map<Key, seq<real>>, topKeys: set<Key>, n: nat)
    requires KeysDistinct(mode, keys)
    ensures forall k | k in buffers ::
              AgeInOrder(mode, keys, buffers, topKeys, n)[k]
              == (if k in KeySet(mode, keys) && k !in topKeys then Push(buffers[k], 0.0, n) else buffers[k])
    decreases |keys|
  {
    if keys != [] {
      var init := keys[..|keys| - 1];
      DistinctInit(mode, keys);
      AgeInOrderIsAge(mode, init, buffers, topKeys, n);
      KeySetSnoc(mode, init, keys[|keys| - 1]);
      assert init + [keys[|keys| - 1]] == keys;
    }
  }

  /** One pass of the first loop of collect_top_20, over top[i]. */
  lemma RecordStep(mode: GroupMode, keys: seq<Stat>, buffers: map<Key, seq<real>>, top: seq<Stat>, i: nat, dim: Dimension, n: nat)
    requires i < |top|
    ensures var t := Record(mode, keys, buffers, top[..i], dim, n);
      var k := KeyOf(mode, top[i]);
      var u := if k in t.buffers then t else Tracked(t.keys + [top[i]], t.buffers[k := Zeros(n)]);
      Record(mode, keys, buffers, top[..i + 1], dim, n) == Tracked(u.keys, u.buffers[k := Push(u.buffers[k], UsageOf(top[i], dim), n)])
  {
    assert top[..i + 1][..i] == top[..i];
  }

  /** In a well-formed dict the loop over the stored keys is Age. */
  lemma AgeInOrderAll(mode: GroupMode, keys: seq<Stat>, buffers: map<Key, seq<real>>, topKeys: set<Key>, n: nat)
    requires Tracks(mode, keys, buffers)
    ensures AgeInOrder(mode, keys, buffers, topKeys, n) == Age(buffers, topKeys, n)
  {
    AgeInOrderIsAge(mode, keys, buffers, topKeys, n);
  }

  /** Record keeps the dict well formed, keeps every stored key, and only appends keys. */
  lemma {:induction false} RecordTracks(mode: GroupMode, keys: seq<Stat>, buffers: map<Key, seq<real>>, top: seq<Stat>, dim: Dimension, n: nat)
    requires Tracks(mode, keys, buffers)
    ensures var t := Record(mode, keys, buffers, top, dim, n);
      Tracks(mode, t.keys, t.buffers) && t.buffers.Keys == buffers.Keys + KeySet(mode, top)
    decreases |top|
  {
    if top != [] {
      var init := top[..|top| - 1];
      var s := top[|top| - 1];
      var k := KeyOf(mode, s);
      RecordTracks(mode, keys, buffers, init, dim, n);
      KeySetSnoc(mode, init, s);
      assert init + [s] == top;
      var t := Record(mode, keys, buffers, init, dim, n);
      var u := if k in t.buffers then t else Tracked(t.keys + [s], t.buffers[k := Zeros(n)]);
      assert Record(mode, keys, buffers, top, dim, n) == Tracked(u.keys, u.buffers[k := Push(u.buffers[k], UsageOf(s, dim), n)]);
      if k !in t.buffers {
        KeySetSnoc(mode, t.keys, s);
        AppendDistinct(mode, t.keys, s);
      }
    }
  }

  /** Record only appends keys: the stored keys stay, in their order, at the front. */
  lemma {:induction false} RecordKeepsKeys(mode: GroupMode, keys: seq<Stat>, buffers: map<Key, seq<real>>, top: seq<Stat>, dim: Dimension, n: nat)
    ensures var t := Record(mode, keys, buffers, top, dim, n);
      |keys| <= |t.keys| && t.keys[..|keys|] == keys
    decreases |top|
  {
    if top != [] {
      var init := top[..|top| - 1];
      var s := top[|top| - 1];
      RecordKeepsKeys(mode, keys, buffers, init, dim, n);
      var t := Record(mode, keys, buffers, init, dim, n);
      assert (t.keys + [s])[..|keys|] == t.keys[..|keys|];
    }
  }

  /** Appending a record whose identity is new keeps the records distinct. */
  lemma AppendDistinct(mode: GroupMode, xs: seq<Stat>, x: Stat)
    requires KeysDistinct(mode, xs) && KeyOf(mode, x) !in KeySet(mode, xs)
    ensures KeysDistinct(mode, xs + [x])
  {
    var ys := xs + [x];
    forall i, j | 0 <= i < j < |ys| ensures KeyOf(mode, ys[i]) != KeyOf(mode, ys[j]) {
      assert ys[i] == xs[i];
      if j < |xs| {
        assert ys[j] == xs[j];
      } else {
        assert KeyOf(mode, xs[i]) in KeySet(mode, xs);
      }
    }
  }

  /** collect_top_20 keeps the dict well formed, removes no key, and tracks every key of top afterwards. */
  lemma CollectTracks(mode: GroupMode, keys: seq<Stat>, buffers: map<Key, seq<real>>, top: seq<Stat>, dim: Dimension, n: nat)
    requires Tracks(mode, keys, buffers)
    ensures var t := Collect(mode, keys, buffers, top, dim, n);
      Tracks(mode, t.keys, t.buffers) && t.buffers.Keys == buffers.Keys + KeySet(mode, top)
    ensures var t := Collect(mode, keys, buffers, top, dim, n);
      |keys| <= |t.keys| && t.keys[..|keys|] == keys
  {
    RecordTracks(mode, keys, buffers, top, dim, n);
    RecordKeepsKeys(mode, keys, buffers, top, dim, n);
  }

  /** Record keeps every history at length n. */
  lemma {:induction false} RecordFilled(mode: GroupMode, keys: seq<Stat>, buffers: map<Key, seq<real>>, top: seq<Stat>, dim: Dimension, n: nat)
    requires Filled(buffers, n)
    ensures Filled(Record(mode, keys, buffers, top, dim, n).buffers, n)
    decreases |top|
  {
    if top != [] {
      var init := top[..|top| - 1];
      var s := top[|top| - 1];
      var k := KeyOf(mode, s);
      RecordFilled(mode, keys, buffers, init, dim, n);
      var t := Record(mode, keys, buffers, init, dim, n);
      if k in t.buffers {
        PushFull(t.buffers[k], UsageOf(s, dim), n);
      } else {
        PushFull(Zeros(n), UsageOf(s, dim), n);
      }
    }
  }

  /** After collect_top_20, every tracked history holds exactly num_samples samples. */
  lemma CollectFilled(mode: GroupMode, keys: seq<Stat>, buffers: map<Key, seq<real>>, top: seq<Stat>, dim: Dimension, n: nat)
    requires Filled(buffers, n)
    ensures Filled(Collect(mode, keys, buffers, top, dim, n).buffers, n)
  {
    RecordFilled(mode, keys, buffers, top, dim, n);
    var b := Record(mode, keys, buffers, top, dim, n).buffers;
    forall k | k in b {
      PushFull(b[k], 0.0, n);
    }
  }

  /** Record leaves untouched the history of a key that no record of top has. */
  lemma {:induction false} RecordOthers(mode: GroupMode, keys: seq<Stat>, buffers: map<Key, seq<real>>, top: seq<Stat>, dim: Dimension, n: nat, k: Key)
    requires k !in KeySet(mode, top)
    ensures var b := Record(mode, keys, buffers, top, dim, n).buffers;
      (k in b <==> k in buffers) && (k in buffers ==> b[k] == buffers[k])
    decreases |top|
  {
    if top != [] {
      var init := top[..|top| - 1];
      KeySetSnoc(mode, init, top[|top| - 1]);
      assert init + [top[|top| - 1]] == top;
      RecordOthers(mode, keys, buffers, init, dim, n, k);
    }
  }

  /**
    Record pushes the usage of the one record of top that has key k onto the
    history of k, which starts as [0] * n when k was not tracked.
   */
  lemma {:induction false} RecordOnce(mode: GroupMode, keys: seq<Stat>, buffers: map<Key, seq<real>>, top: seq<Stat>, dim: Dimension, n: nat, i: nat)
    requires i < |top|
    requires forall j | 0 <= j < |top| && j != i :: KeyOf(mode, top[j]) != KeyOf(mode, top[i])
    ensures var k := KeyOf(mode, top[i]);
      var b := Record(mode, keys, buffers, top, dim, n).buffers;
      k in b && b[k] == Push(if k in buffers then buffers[k] else Zeros(n), UsageOf(top[i], dim), n)
    decreases |top|
  {
    var init := top[..|top| - 1];
    var k := KeyOf(mode, top[i]);
    RecordSnoc(mode, keys, buffers, top, dim, n, k);
    if i == |top| - 1 {
      assert forall m | 0 <= m < |init| :: init[m] == top[m];
      RecordOthers(mode, keys, buffers, init, dim, n, k);
    } else {
      assert init[i] == top[i];
      forall j | 0 <= j < |init| && j != i ensures KeyOf(mode, init[j]) != k {
        assert init[j] == top[j];
      }
      RecordOnce(mode, keys, buffers, init, dim, n, i);
    }
  }

  /**
    A key held by exactly one record of the first 20 ends with that record's
    usage as its last sample: a tracked full history loses its oldest sample,
    and a new key starts as num_samples - 1 zeros followed by the usage.
   */
  lemma CollectTopBuffer(mode: GroupMode, keys: seq<Stat>, buffers: map<Key, seq<real>>, top: seq<Stat>, dim: Dimension, n: nat, i: nat)
    requires Filled(buffers, n) && n > 0
    requires i < |top|
    requires forall j | 0 <= j < |top| && j != i :: KeyOf(mode, top[j]) != KeyOf(mode, top[i])
    ensures var k := KeyOf(mode, top[i]);
      var b := Collect(mode, keys, buffers, top, dim, n).buffers;
      k in b && b[k] == (if k in buffers then buffers[k][1..] else Zeros(n - 1)) + [UsageOf(top[i], dim)]
  {
    var k := KeyOf(mode, top[i]);
    RecordOnce(mode, keys, buffers, top, dim, n, i);
    assert k in KeySet(mode, top);
    if k in buffers {
      PushFull(buffers[k], UsageOf(top[i], dim), n);
    } else {
      PushFull(Zeros(n), UsageOf(top[i], dim), n);
      assert Zeros(n)[1..] == Zeros(n - 1);
    }
  }

  /** A tracked key that no record of the first 20 has gets 0 appended and its oldest sample dropped. */
  lemma CollectAgedBuffer(mode: GroupMode, keys: seq<Stat>, buffers: map<Key, seq<real>>, top: seq<Stat>, dim: Dimension, n: nat, k: Key)
    requires Filled(buffers, n) && n > 0
    requires k in buffers && k !in KeySet(mode, top)
    ensures var b := Collect(mode, keys, buffers, top, dim, n).buffers;
      k in b && b[k] == buffers[k][1..] + [0.0]
  {
    RecordOthers(mode, keys, buffers, top, dim, n, k);
    PushFull(buffers[k], 0.0, n);
  }

  /** For example, with five samples a tracked key outside the first 20 goes from [5,5,5,5,5] to [5,5,5,5,0]. */
  lemma CollectAgedExample(mode: GroupMode, keys: seq<Stat>, buffers: map<Key, seq<real>>, top: seq<Stat>, dim: Dimension, k: Key)
    requires Filled(buffers, 5)
    requires k in buffers && buffers[k] == [5.0, 5.0, 5.0, 5.0, 5.0] && k !in KeySet(mode, top)
    ensures var b := Collect(mode, keys, buffers, top, dim, 5).buffers;
      k in b && b[k] == [5.0, 5.0, 5.0, 5.0, 0.0]
  {
    CollectAgedBuffer(mode, keys, buffers, top, dim, 5, k);
  }

  /** The usages along dim of the records of top whose key is k, in the order of top. */
  function UsagesOf(mode: GroupMode, top: seq<Stat>, k: Key, dim: Dimension): (r: seq<real>)
    ensures |r| <= |top|
    ensures k !in KeySet(mode, top) ==> r == []
    decreases |top|
  {
    if top == [] then []
    else
      var init := UsagesOf(mode, top[..|top| - 1], k, dim);
      KeySetSnoc(mode, top[..|top| - 1], top[|top| - 1]);
      assert top[..|top| - 1] + [top[|top| - 1]] == top;
      if KeyOf(mode, top[|top| - 1]) == k then init + [UsageOf(top[|top| - 1], dim)] else init
  }

  /** One Push per value of vs, in order. */
  function PushAll(buf: seq<real>, vs: seq<real>, n: nat): seq<real>
    decreases |vs|
  {
    if vs == [] then buf else Push(PushAll(buf, vs[..|vs| - 1], n), vs[|vs| - 1], n)
  }

  /** Pushing onto a full history keeps its last n values: each pushed value drops one of the oldest. */
  lemma {:induction false} PushAllFull(buf: seq<real>, vs: seq<real>, n: nat)
    requires |buf| == n
    ensures |PushAll(buf, vs, n)| == n
    ensures PushAll(buf, vs, n) == (buf + vs)[|vs|..]
    decreases |vs|
  {
    if vs != [] {
      var init := vs[..|vs| - 1];
      PushAllFull(buf, init, n);
      var p := PushAll(buf, init, n);
      PushFull(p, vs[|vs| - 1], n);
      assert buf + vs == (buf + init) + [vs[|vs| - 1]];
      if n > 0 {
        assert p[1..] + [vs[|vs| - 1]] == (buf + vs)[|vs|..];
      }
    }
  }

  /**
    The first loop on a key that several records of top share (in pid mode,
    every fake record of a failed read has the key (-1, "<error>")): the
    usage of each of them is pushed onto the one history, in order.
   */
  lemma {:induction false} RecordShared(mode: GroupMode, keys: seq<Stat>, buffers: map<Key, seq<real>>, top: seq<Stat>, dim: Dimension, n: nat, k: Key)
    requires k in KeySet(mode, top)
    ensures var b := Record(mode, keys, buffers, top, dim, n).buffers;
      k in b && b[k] == PushAll(if k in buffers then buffers[k] else Zeros(n), UsagesOf(mode, top, k, dim), n)
    decreases |top|
  {
    var init := top[..|top| - 1];
    var s := top[|top| - 1];
    KeySetSnoc(mode, init, s);
    assert init + [s] == top;
    RecordSnoc(mode, keys, buffers, top, dim, n, k);
    var start := if k in buffers then buffers[k] else Zeros(n);
    var us := UsagesOf(mode, init, k, dim);
    if KeyOf(mode, s) != k {
      assert UsagesOf(mode, top, k, dim) == us;
      RecordShared(mode, keys, buffers, init, dim, n, k);
    } else if k in KeySet(mode, init) {
      assert UsagesOf(mode, top, k, dim) == us + [UsageOf(s, dim)];
      RecordShared(mode, keys, buffers, init, dim, n, k);
      PushAllSnoc(start, us, UsageOf(s, dim), n, Record(mode, keys, buffers, init, dim, n).buffers[k]);
    } else {
      assert UsagesOf(mode, top, k, dim) == [UsageOf(s, dim)];
      RecordOthers(mode, keys, buffers, init, dim, n, k);
      PushAllSnoc(start, [], UsageOf(s, dim), n, start);
    }
  }

  /** The first loop's last step, seen from the history of one key k. */
  lemma RecordSnoc(mode: GroupMode, keys: seq<Stat>, buffers: map<Key, seq<real>>, top: seq<Stat>, dim: Dimension, n: nat, k: Key)
    requires top != []
    ensures var t := Record(mode, keys, buffers, top[..|top| - 1], dim, n).buffers;
      var s := top[|top| - 1];
      var b := Record(mode, keys, buffers, top, dim, n).buffers;
      && (k in b <==> k in t || KeyOf(mode, s) == k)
      && (KeyOf(mode, s) == k ==> b[k] == Push(if k in t then t[k] else Zeros(n), UsageOf(s, dim), n))
      && (KeyOf(mode, s) != k && k in t ==> b[k] == t[k])
  {
  }

  /** One more pushed value extends PushAll by that value. */
  lemma PushAllSnoc(start: seq<real>, us: seq<real>, v: real, n: nat, h: seq<real>)
    requires h == PushAll(start, us, n)
    ensures Push(h, v, n) == PushAll(start, us + [v], n)
  {
    assert (us + [v])[..|us|] == us;
  }

  /**
    After collect_top_20, a key that one or more records of the first 20 hold
    keeps the newest num_samples values of its old history (num_samples zeros
    when new) followed by the usages of those records: two records with one
    key drop two old samples.
   */
  lemma CollectSharedBuffer(mode: GroupMode, keys: seq<Stat>, buffers: map<Key, seq<real>>, top: seq<Stat>, dim: Dimension, n: nat, k: Key)
    requires Filled(buffers, n)
    requires k in KeySet(mode, top)
    ensures var b := Collect(mode, keys, buffers, top, dim, n).buffers;
      var old0 := if k in buffers then buffers[k] else Zeros(n);
      var us := UsagesOf(mode, top, k, dim);
      k in b && |b[k]| == n && b[k] == (old0 + us)[|us|..]
  {
    var old0 := if k in buffers then buffers[k] else Zeros(n);
    RecordShared(mode, keys, buffers, top, dim, n, k);
    PushAllFull(old0, UsagesOf(mode, top, k, dim), n);
  }

  /** stats[:20] */
  function Top20<T>(xs: seq<T>): (r: seq<T>)
    ensures |r| == if |xs| < 20 then |xs| else 20
    ensures r == xs[..|r|]
  {
    if |xs| < 20 then xs else xs[..20]
  }

  /** The sum of a history. */
  function SampleSum(xs: seq<real>): real
    decreases |xs|
  {
    if xs == [] then 0.0 else SampleSum(xs[..|xs| - 1]) + xs[|xs| - 1]
  }

  /** The key of the final sort: sum(u[1]). */
  function UsageSum(u: Usage): real {
    SampleSum(u.samples)
  }

  /** The key of the snapshot sort: the usage of the dimension the dict tracks. */
  function SortKey(dim: Dimension): Stat -> real {
    (s: Stat) => UsageOf(s, dim)
  }

  /** list(per_pid_stats.items()): each stored key with its history, in insertion order. */
  function Items(mode: GroupMode, keys: seq<Stat>, buffers: map<Key, seq<real>>): (r: seq<Usage>)
    requires buffers.Keys == KeySet(mode, keys)
    ensures |r| == |keys|
    ensures forall i | 0 <= i < |r| :: r[i].stat == keys[i] && r[i].samples == buffers[KeyOf(mode, keys[i])]
  {
    seq(|keys|, i requires 0 <= i < |keys| => Usage(keys[i], buffers[KeyOf(mode, keys[i])]))
  }

  /** usages.sort(key=sum, reverse=True); usages[:20] */
  function Ranked(items: seq<Usage>): (r: seq<Usage>)
    ensures |r| == if |items| < 20 then |items| else 20
  {
    Top20(SortDesc(items, UsageSum))
  }

  /** The result of collect_top_20 is in non-increasing order of history sum. */
  lemma RankedDescending(items: seq<Usage>)
    ensures Descending(Ranked(items), UsageSum)
  {
    var sorted := SortDesc(items, UsageSum);
    SortDescDescending(items, UsageSum);
    assert forall i | 0 <= i < |Ranked(items)| :: Ranked(items)[i] == sorted[i];
  }

  /** The result of collect_top_20 is drawn from the dict's items, each at most once. */
  lemma RankedPermutes(items: seq<Usage>)
    ensures multiset(Ranked(items)) <= multiset(items)
  {
    var sorted := SortDesc(items, UsageSum);
    var r := Ranked(items);
    assert sorted == r + sorted[|r|..];
    SortDescPermutes(items, UsageSum);
  }

  /** An item left out of the result has a sum no larger than that of any item kept. */
  lemma RankedTop(items: seq<Usage>)
    ensures forall u, v | u in items && u !in Ranked(items) && v in Ranked(items) :: UsageSum(v) >= UsageSum(u)
  {
    var sorted := SortDesc(items, UsageSum);
    var r := Ranked(items);
    SortDescDescending(items, UsageSum);
    SortDescPermutes(items, UsageSum);
    forall u, v | u in items && u !in r && v in r ensures UsageSum(v) >= UsageSum(u) {
      assert u in multiset(sorted);
      var j :| 0 <= j < |sorted| && sorted[j] == u;
      var i :| 0 <= i < |r| && r[i] == v;
      assert sorted[i] == v;
    }
  }

  /**
    Ties keep the dict's insertion order: the items of any one sum that make
    the result are the first items of that sum in the dict.
   */
  lemma RankedStable(items: seq<Usage>, v: real)
    ensures |WithKey(Ranked(items), UsageSum, v)| <= |WithKey(items, UsageSum, v)|
    ensures WithKey(Ranked(items), UsageSum, v) == WithKey(items, UsageSum, v)[..|WithKey(Ranked(items), UsageSum, v)|]
  {
    var sorted := SortDesc(items, UsageSum);
    var r := Ranked(items);
    assert sorted == r + sorted[|r|..];
    SortDescStable(items, UsageSum, v);
    WithKeyAppend(r, sorted[|r|..], UsageSum, v);
  }

  /** usages = list(per_pid_stats.items()); usages.sort(...); usages[:20], on a fresh array. */
  method Rank(items: seq<Usage>) returns (top: seq<Usage>)
    ensures top == Ranked(items)
  {
    var a := new Usage[|items|](j requires 0 <= j < |items| => items[j]);
    assert a[..] == items;
    SortInPlace(a, UsageSum);
    top := Top20(a[..]);
  }

  /** alive_pids: the pids of the snapshot's records. */
  method AlivePids(stats: seq<Stat>) returns (alive: set<int>)
    ensures alive == set i | 0 <= i < |stats| :: stats[i].pid
  {
    alive := {};
    var i := 0;
    while i < |stats|
      invariant 0 <= i <= |stats|
      invariant alive == set j | 0 <= j < i :: stats[j].pid
    {
      alive := alive + {stats[i].pid};
      i := i + 1;
    }
  }

  /** A dict of the tracker: per_pid_stats. */
  class History {
    const mode: GroupMode
    var keys: seq<Stat>
    var buffers: map<Key, seq<real>>

    ghost predicate Valid()
      reads this
    {
      Tracks(mode, keys, buffers)
    }

    /** An empty dict {}. */
    constructor(mode: GroupMode)
      ensures Valid() && this.mode == mode && keys == [] && buffers == map[]
    {
      this.mode := mode;
      keys := [];
      buffers := map[];
    }
  }

  /** PIDStatsCollector without its thread and its display callbacks. */
  class PIDStatsCollector {
    const numSamples: nat
    const cpu: History
    const mem: History
    const net: History
    const io: History

    ghost predicate Valid()
      reads this, cpu, mem, net, io
    {
      && cpu != mem && cpu != net && cpu != io && mem != net && mem != io && net != io
      && cpu.mode == mem.mode == net.mode == io.mode
      && cpu.Valid() && mem.Valid() && net.Valid() && io.Valid()
      && Filled(cpu.buffers, numSamples) && Filled(mem.buffers, numSamples)
      && Filled(net.buffers, numSamples) && Filled(io.buffers, numSamples)
    }

    /** Four empty dicts; numSamples stands for int(60 / sample_seconds). */
    constructor(numSamples: nat, mode: GroupMode)
      ensures Valid() && this.numSamples == numSamples
      ensures cpu.mode == mode && cpu.keys == [] && mem.keys == [] && net.keys == [] && io.keys == []
      ensures fresh(cpu) && fresh(mem) && fresh(net) && fresh(io)
    {
      this.numSamples := numSamples;
      cpu := new History(mode);
      mem := new History(mode);
      net := new History(mode);
      io := new History(mode);
    }

    /**
      collect_top_20(h, stats, sort_key): stats ends stably sorted by the
      usage of dim, h becomes Collect of its old state and the first 20
      records, and the result is the ranking of h's items.
     */
    method CollectTop20(h: History, stats: array<Stat>, dim: Dimension) returns (top: seq<Usage>)
      requires h.Valid()
      modifies h, stats
      ensures h.Valid()
      ensures stats[..] == SortDesc(old(stats[..]), SortKey(dim))
      ensures var t := Collect(h.mode, old(h.keys), old(h.buffers), Top20(stats[..]), dim, numSamples);
        h.keys == t.keys && h.buffers == t.buffers
      ensures top == Ranked(Items(h.mode, h.keys, h.buffers))
    {
      SortInPlace(stats, SortKey(dim));
      var top20 := Top20(stats[..]);
      RecordTop(h, top20, dim);
      RecordTracks(h.mode, old(h.keys), old(h.buffers), top20, dim, numSamples);
      AgeOthers(h, top20);
      CollectTracks(h.mode, old(h.keys), old(h.buffers), top20, dim, numSamples);
      top := Rank(Items(h.mode, h.keys, h.buffers));
    }

    /**
      One round of update() after process_stats: the set of live pids, then
      collect_top_20 on cpu, mem, net and io in turn over the same list, each
      call sorting the order the previous call left.
     */
    method Cycle(stats: array<Stat>) returns (cpuTop: seq<Usage>, memTop: seq<Usage>, netTop: seq<Usage>, ioTop: seq<Usage>, alive: set<int>)
      requires Valid()
      modifies cpu, mem, net, io, stats
      ensures Valid()
      ensures alive == set i | 0 <= i < |old(stats[..])| :: old(stats[..])[i].pid
      ensures var s1 := SortDesc(old(stats[..]), SortKey(Cpu));
        var t := Collect(cpu.mode, old(cpu.keys), old(cpu.buffers), Top20(s1), Cpu, numSamples);
        cpu.keys == t.keys && cpu.buffers == t.buffers
      ensures var s2 := SortDesc(SortDesc(old(stats[..]), SortKey(Cpu)), SortKey(Mem));
        var t := Collect(mem.mode, old(mem.keys), old(mem.buffers), Top20(s2), Mem, numSamples);
        mem.keys == t.keys && mem.buffers == t.buffers
      ensures var s3 := SortDesc(SortDesc(SortDesc(old(stats[..]), SortKey(Cpu)), SortKey(Mem)), SortKey(Net));
        var t := Collect(net.mode, old(net.keys), old(net.buffers), Top20(s3), Net, numSamples);
        net.keys == t.keys && net.buffers == t.buffers
      ensures stats[..] == SortDesc(SortDesc(SortDesc(SortDesc(old(stats[..]), SortKey(Cpu)), SortKey(Mem)), SortKey(Net)), SortKey(Io))
      ensures var t := Collect(io.mode, old(io.keys), old(io.buffers), Top20(stats[..]), Io, numSamples);
        io.keys == t.keys && io.buffers == t.buffers
      ensures cpuTop == Ranked(Items(cpu.mode, cpu.keys, cpu.buffers))
      ensures memTop == Ranked(Items(mem.mode, mem.keys, mem.buffers))
      ensures netTop == Ranked(Items(net.mode, net.keys, net.buffers))
      ensures ioTop == Ranked(Items(io.mode, io.keys, io.buffers))
    {
      alive := AlivePids(stats[..]);
      cpuTop := Step(cpu, stats, Cpu);
      memTop := Step(mem, stats, Mem);
      netTop := Step(net, stats, Net);
      ioTop := Step(io, stats, Io);
    }

    /** One collect_top_20 call of Cycle, keeping the collector's invariant. */
    method Step(h: History, stats: array<Stat>, dim: Dimension) returns (top: seq<Usage>)
      requires Valid() && (h == cpu || h == mem || h == net || h == io)
      modifies h, stats
      ensures Valid()
      ensures stats[..] == SortDesc(old(stats[..]), SortKey(dim))
      ensures var t := Collect(h.mode, old(h.keys), old(h.buffers), Top20(stats[..]), dim, numSamples);
        h.keys == t.keys && h.buffers == t.buffers
      ensures top == Ranked(Items(h.mode, h.keys, h.buffers))
    {
      ghost var keys0, buffers0 := h.keys, h.buffers;
      top := CollectTop20(h, stats, dim);
      CollectFilled(h.mode, keys0, buffers0, Top20(stats[..]), dim, numSamples);
    }

    /** The first loop of collect_top_20: each record of top20 pushes its usage onto its key's history. */
    method RecordTop(h: History, top20: seq<Stat>, dim: Dimension)
      modifies h
      ensures Tracked(h.keys, h.buffers) == Record(h.mode, old(h.keys), old(h.buffers), top20, dim, numSamples)
    {
      ghost var keys0, buffers0 := h.keys, h.buffers;
      var i := 0;
      while i < |top20|
        invariant 0 <= i <= |top20|
        invariant Tracked(h.keys, h.buffers) == Record(h.mode, keys0, buffers0, top20[..i], dim, numSamples)
      {
        var s := top20[i];
        var k := KeyOf(h.mode, s);
        if k !in h.buffers {
          h.keys := h.keys + [s];
          h.buffers := h.buffers[k := Zeros(numSamples)];
        }
        var buf := h.buffers[k] + [UsageOf(s, dim)];
        if |buf| > numSamples {
          buf := buf[1..];
        }
        h.buffers := h.buffers[k := buf];
        RecordStep(h.mode, keys0, buffers0, top20, i, dim, numSamples);
        i := i + 1;
      }
      assert top20[..i] == top20;
    }

    /** The second loop of collect_top_20: 0 is pushed onto the history of every stored key outside top20. */
    method AgeOthers(h: History, top20: seq<Stat>)
      requires h.Valid()
      modifies h
      ensures h.keys == old(h.keys)
      ensures h.buffers == Age(old(h.buffers), KeySet(h.mode, top20), numSamples)
    {
      var topKeys := KeySet(h.mode, top20);
      var keys := h.keys;
      ghost var buffers0 := h.buffers;
      var j := 0;
      while j < |keys|
        invariant 0 <= j <= |keys|
        invariant h.keys == keys
        invariant h.buffers == AgeInOrder(h.mode, keys[..j], buffers0, topKeys, numSamples)
      {
        var k := KeyOf(h.mode, keys[j]);
        AgeInOrderStep(h.mode, keys, j, buffers0, topKeys, numSamples);
        if k !in topKeys {
          assert k in buffers0;
          var buf := h.buffers[k] + [0.0];
          if |buf| > numSamples {
            buf := buf[1..];
          }
          assert buf == Push(h.buffers[k], 0.0, numSamples);
          h.buffers := h.buffers[k := buf];
        }
        j := j + 1;
      }
      assert keys[..j] == keys;
      AgeInOrderAll(h.mode, keys, buffers0, topKeys, numSamples);
    }
  }
}
