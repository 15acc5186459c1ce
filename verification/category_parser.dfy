/**
 `CategoryParser` (src/parser/category_inn_parser.py): the pure parts of
 turning a list of product links into a per-seller table. The links are
 dealt round-robin to three workers, each worker's observations are folded
 into one shared `sellers_data` dictionary (modelled as a sequential fold, as
 the lock makes each update atomic), and the table is then shaped into an
 INN list, spreadsheet rows and a summary message.
 */
module CategoryParser {
  import opened Text
  import opened Records
  import UrlUtils

  const WorkersCount: nat := 3
  const SampleCap: nat := 3
  const TitleCap: nat := 100

  // ---------------------------------------------------------------------------
  // Round-robin sharding (lines 477-480) and worker submission (lines 489-492)
  // ---------------------------------------------------------------------------

  /** The sharding loop: link `i` is appended to shard `i % w`. */
  function RoundRobin<T>(links: seq<T>, w: nat): (r: seq<seq<T>>)
    requires w > 0
    ensures |r| == w
  {
    if links == [] then seq(w, _ => [])
    else
      var s := RoundRobin(links[..|links| - 1], w);
      var j := (|links| - 1) % w;
      s[j := s[j] + [links[|links| - 1]]]
  }

  /** Reference definition of shard `j`: the links at positions `j`, `j + w`, `j + 2w`, ... */
  function Stride<T>(links: seq<T>, j: nat, w: nat): seq<T>
    requires w > 0
    decreases |links| - j
  {
    if j >= |links| then [] else [links[j]] + Stride(links, j + w, w)
  }

  lemma ModBelow(a: int, w: int)
    requires 0 <= a < w
    ensures a % w == a
  {
  }

  lemma ModShift(a: int, w: int)
    requires w > 0 && a >= w
    ensures (a - w) % w == a % w
  {
    var q, m := a / w, a % w;
    var q', m' := (a - w) / w, (a - w) % w;
    assert a == q * w + m;
    assert a - w == q' * w + m';
    assert (q - 1 - q') * w == m' - m;
    MultipleBelow(q - 1 - q', w);
  }

  /** The only multiple of `w` strictly between `-w` and `w` is zero. */
  lemma MultipleBelow(k: int, w: int)
    requires w > 0 && -w < k * w < w
    ensures k == 0
  {
  }

  /** Position `n` belongs to stride `j < w` exactly when `n % w == j`. */
  lemma {:induction false} StrideMember(n: nat, j: nat, w: nat)
    requires 0 <= j < w
    ensures (j <= n && (n - j) % w == 0) <==> n % w == j
    decreases n
  {
    if n >= w {
      ModShift(n, w);
      StrideMember(n - w, j, w);
      if j <= n - w {
        ModShift(n - j, w);
      } else if j <= n {
        ModBelow(n - j, w);
      }
    } else {
      ModBelow(n, w);
      if j <= n {
        ModBelow(n - j, w);
      }
    }
  }

  lemma {:induction false} StrideSnoc<T>(links: seq<T>, x: T, j: nat, w: nat)
    requires w > 0
    ensures Stride(links + [x], j, w)
         == if j <= |links| && (|links| - j) % w == 0 then Stride(links, j, w) + [x] else Stride(links, j, w)
    decreases |links| - j
  {
    var l := links + [x];
    if j < |links| {
      var d := |links| - j;
      StrideSnoc(links, x, j + w, w);
      assert l[j] == links[j];
      assert Stride(l, j, w) == [links[j]] + Stride(l, j + w, w);
      if j + w <= |links| {
        ModShift(d, w);
        assert |links| - (j + w) == d - w;
      } else {
        ModBelow(d, w);
        assert Stride(l, j + w, w) == [] == Stride(links, j + w, w);
      }
    }
  }

  /** The sharding loop builds exactly the strides. */
  lemma {:induction false} RoundRobinIsStride<T>(links: seq<T>, w: nat)
    requires w > 0
    ensures forall j | 0 <= j < w :: RoundRobin(links, w)[j] == Stride(links, j, w)
  {
    if links != [] {
      var n := |links| - 1;
      var init, x := links[..n], links[n];
      assert links == init + [x];
      RoundRobinIsStride(init, w);
      forall j | 0 <= j < w
        ensures RoundRobin(links, w)[j] == Stride(links, j, w)
      {
        RoundRobinStep(init, x, w, j);
      }
    }
  }

  /** One more link extends shard `j` exactly when shard `j`'s stride reaches it. */
  lemma RoundRobinStep<T>(init: seq<T>, x: T, w: nat, j: nat)
    requires w > 0 && j < w && RoundRobin(init, w)[j] == Stride(init, j, w)
    ensures RoundRobin(init + [x], w)[j] == Stride(init + [x], j, w)
  {
    var links := init + [x];
    var n := |init|;
    assert links[..n] == init;
    var s := RoundRobin(init, w);
    var m := n % w;
    assert RoundRobin(links, w) == s[m := s[m] + [x]];
    StrideSnoc(init, x, j, w);
    StrideMember(n, j, w);
  }

  /** Shard sizes differ by at most one, earlier shards being the larger. */
  lemma {:induction false} StrideSizes<T>(links: seq<T>, j1: nat, j2: nat, w: nat)
    requires w > 0 && j1 <= j2 < j1 + w
    ensures |Stride(links, j2, w)| <= |Stride(links, j1, w)| <= |Stride(links, j2, w)| + 1
    decreases |links| - j1
  {
    if j1 < |links| {
      StrideSizes(links, j1 + w, j2 + w, w);
    }
  }

  /** A shard is non-empty exactly when it received the link at its own index. */
  lemma StrideNonEmpty<T>(links: seq<T>, j: nat, w: nat)
    requires w > 0
    ensures Stride(links, j, w) != [] <==> j < |links|
  {
  }

  /** All the shards, one after the other. */
  function Concat<T>(ss: seq<seq<T>>): seq<T> {
    if ss == [] then [] else ss[0] + Concat(ss[1..])
  }

  lemma {:induction false} ConcatAppendAt<T>(ss: seq<seq<T>>, k: nat, x: T)
    requires k < |ss|
    ensures multiset(Concat(ss[k := ss[k] + [x]])) == multiset(Concat(ss)) + multiset{x}
  {
    var u := ss[k := ss[k] + [x]];
    if k == 0 {
      assert u[1..] == ss[1..];
    } else {
      assert u[1..] == ss[1..][k - 1 := ss[1..][k - 1] + [x]];
      ConcatAppendAt(ss[1..], k - 1, x);
    }
  }

  /** The shards partition the links: every link goes to exactly one shard. */
  lemma {:induction false} RoundRobinPartition<T>(links: seq<T>, w: nat)
    requires w > 0
    ensures multiset(Concat(RoundRobin(links, w))) == multiset(links)
  {
    if links == [] {
      var e: seq<seq<T>> := seq(w, _ => []);
      assert forall k | 0 <= k <= w :: Concat(e[k..]) == [] by {
        forall k | 0 <= k <= w
          ensures Concat(e[k..]) == []
        {
          EmptyShards(e, k);
        }
      }
      assert e[0..] == e;
    } else {
      var init := links[..|links| - 1];
      assert links == init + [links[|links| - 1]];
      RoundRobinPartition(init, w);
      ConcatAppendAt(RoundRobin(init, w), (|links| - 1) % w, links[|links| - 1]);
    }
  }

  lemma {:induction false} EmptyShards<T>(e: seq<seq<T>>, k: nat)
    requires k <= |e| && forall i | 0 <= i < |e| :: e[i] == []
    ensures Concat(e[k..]) == []
    decreases |e| - k
  {
    if k < |e| {
      EmptyShards(e, k + 1);
      assert e[k..][1..] == e[k + 1..];
    }
  }

  /** The workers actually submitted: those whose shard is non-empty. */
  function Submitted<T>(shards: seq<seq<T>>): (r: seq<nat>)
    ensures forall i :: i in r <==> 0 <= i < |shards| && shards[i] != []
  {
    if shards == [] then []
    else
      var n := |shards| - 1;
      var p := Submitted(shards[..n]);
      assert forall i | 0 <= i < n :: shards[..n][i] == shards[i];
      if shards[n] != [] then p + [n] else p
  }

  /** With fewer links than workers, only the first `|links|` workers run. */
  lemma SubmittedWorkers<T>(links: seq<T>, w: nat)
    requires w > 0
    ensures forall j | 0 <= j < w :: j in Submitted(RoundRobin(links, w)) <==> j < |links|
  {
    RoundRobinIsStride(links, w);
  }

  // ---------------------------------------------------------------------------
  // The merge under the lock (lines 430-456)
  // ---------------------------------------------------------------------------

  /** What `get_seller_details` returned: `None` stands for a falsy result (`None` or `{}`). */
  datatype Info = Info(companyName: Option<string>, inn: Option<string>)

  /** What a worker sees on one product page: the seller details and the `h1` text
      (`None` when finding the title raised). */
  datatype Observation = Observation(info: Option<Info>, title: Option<string>)

  /** The guard of line 432. */
  predicate Accepted(o: Observation) {
    o.info.Some? && o.info.value.companyName != Some(NotFound)
  }

  /** The dictionary key of an accepted observation. */
  function SellerKey(o: Observation): string
    requires o.info.Some?
  {
    GetOr(o.info.value.companyName, Unknown)
  }

  /** The record created the first time a key is seen. */
  function NewRecord(i: Info): SellerRecord {
    SellerRecord(None, Some(GetOr(i.companyName, NotFound)), Some(GetOr(i.inn, NotFound)), 0, [], None, None)
  }

  /** One more product for a record; a sample is kept while fewer than three are held. */
  function CountProduct(rec: SellerRecord, link: string, title: Option<string>): SellerRecord {
    var samples :=
      if |rec.samples| < SampleCap && title.Some? then rec.samples + [Sample(PyPrefix(title.value, TitleCap), link, None)]
      else rec.samples;
    rec.(productsCount := rec.productsCount + 1, samples := samples)
  }

  /** Applies `CountProduct` to the entry under `key`. */
  function CountAt(table: seq<Entry>, key: string, link: string, title: Option<string>): (r: seq<Entry>)
    ensures Keys(r) == Keys(table)
    ensures forall i | 0 <= i < |table| :: r[i] == if table[i].key == key then Entry(key, CountProduct(table[i].rec, link, title)) else table[i]
  {
    if table == [] then []
    else
      var n := |table| - 1;
      var e := table[n];
      CountAt(table[..n], key, link, title) + [if e.key == key then Entry(key, CountProduct(e.rec, link, title)) else e]
  }

  /** One link processed by a worker. */
  function MergeStep(table: seq<Entry>, link: string, o: Observation): (r: seq<Entry>)
    ensures !Accepted(o) ==> r == table
    ensures Accepted(o) ==> |r| == |table| + (if SellerKey(o) in Keys(table) then 0 else 1)
    ensures Accepted(o) ==> forall i | 0 <= i < |table| && table[i].key != SellerKey(o) :: r[i] == table[i]
    ensures Accepted(o) ==> SellerKey(o) in Keys(r)
  {
    if !Accepted(o) then table
    else
      var key := SellerKey(o);
      var t := if key in Keys(table) then table else table + [Entry(key, NewRecord(o.info.value))];
      assert Keys(t) == if key in Keys(table) then Keys(table) else Keys(table) + [key];
      CountAt(t, key, link, o.title)
  }

  /** What an accepted link does to the entries: a new key is appended with a record built from
      the link's seller details, and the entry under the link's key counts one more product and
      takes the link as a sample while it holds fewer than `SampleCap`. */
  lemma MergeStepEntries(table: seq<Entry>, link: string, o: Observation)
    ensures Accepted(o) ==> forall i | 0 <= i < |MergeStep(table, link, o)| ::
      MergeStep(table, link, o)[i].key == if i < |table| then table[i].key else SellerKey(o)
    ensures Accepted(o) ==> forall i | 0 <= i < |table| && table[i].key == SellerKey(o) ::
      MergeStep(table, link, o)[i].rec == CountProduct(table[i].rec, link, o.title)
    ensures Accepted(o) && SellerKey(o) !in Keys(table) ==>
      MergeStep(table, link, o)[|table|].rec == CountProduct(NewRecord(o.info.value), link, o.title)
  {
    if Accepted(o) {
      var key := SellerKey(o);
      var t := if key in Keys(table) then table else table + [Entry(key, NewRecord(o.info.value))];
      assert Keys(t) == if key in Keys(table) then Keys(table) else Keys(table) + [key];
      assert MergeStep(table, link, o) == CountAt(t, key, link, o.title);
    }
  }

  /** All the links, in the order the workers' updates took the lock. */
  function MergeAll(links: seq<string>, observe: string -> Observation): seq<Entry> {
    if links == [] then []
    else
      var n := |links| - 1;
      MergeStep(MergeAll(links[..n], observe), links[n], observe(links[n]))
  }

  /** The merged table of a non-empty run is the last link merged into the rest's table. */
  lemma MergeAllLast(links: seq<string>, observe: string -> Observation)
    requires links != []
    ensures MergeAll(links, observe)
         == MergeStep(MergeAll(links[..|links| - 1], observe), links[|links| - 1], observe(links[|links| - 1]))
  {
  }

  /** Sum of `products_count` over a table. */
  function TotalCount(table: seq<Entry>): nat {
    if table == [] then 0 else TotalCount(table[..|table| - 1]) + table[|table| - 1].rec.productsCount
  }

  lemma {:induction false} TotalCountAppend(a: seq<Entry>, e: Entry)
    ensures TotalCount(a + [e]) == TotalCount(a) + e.rec.productsCount
  {
    assert (a + [e])[..|a|] == a;
  }

  lemma TotalCountAt(table: seq<Entry>, key: string, link: string, title: Option<string>)
    requires WellKeyed(table) && key in Keys(table)
    ensures TotalCount(CountAt(table, key, link, title)) == TotalCount(table) + 1
  {
    TotalCountAtAny(table, key, link, title);
    DistinctOnce(Keys(table), key);
  }

  /** How many times `key` occurs in `keys`. */
  function Occurrences(keys: seq<string>, key: string): nat {
    if keys == [] then 0
    else Occurrences(keys[..|keys| - 1], key) + (if keys[|keys| - 1] == key then 1 else 0)
  }

  /** Counting a product adds one per entry under the key, whatever the table. */
  lemma {:induction false} TotalCountAtAny(table: seq<Entry>, key: string, link: string, title: Option<string>)
    ensures TotalCount(CountAt(table, key, link, title)) == TotalCount(table) + Occurrences(Keys(table), key)
  {
    if table != [] {
      var n := |table| - 1;
      var init, e := table[..n], table[n];
      var e' := if e.key == key then Entry(key, CountProduct(e.rec, link, title)) else e;
      assert CountAt(table, key, link, title) == CountAt(init, key, link, title) + [e'];
      TotalCountAppend(CountAt(init, key, link, title), e');
      assert Keys(table)[..n] == Keys(init);
      TotalCountAtAny(init, key, link, title);
    }
  }

  /** A key of a duplicate-free key list occurs exactly once. */
  lemma {:induction false} DistinctOnce(keys: seq<string>, key: string)
    requires Distinct(keys) && key in keys
    ensures Occurrences(keys, key) == 1
  {
    var n := |keys| - 1;
    var init := keys[..n];
    assert Distinct(init);
    if keys[n] == key {
      assert key !in init;
      AbsentNone(init, key);
    } else {
      assert key in init by {
        var i :| 0 <= i < |keys| && keys[i] == key;
        assert init[i] == key;
      }
      DistinctOnce(init, key);
    }
  }

  lemma {:induction false} AbsentNone(keys: seq<string>, key: string)
    requires key !in keys
    ensures Occurrences(keys, key) == 0
  {
    if keys != [] {
      AbsentNone(keys[..|keys| - 1], key);
    }
  }

  lemma NoKeyNoCount(table: seq<Entry>, key: string, link: string, title: Option<string>)
    requires key !in Keys(table)
    ensures CountAt(table, key, link, title) == table
  {
    var r := CountAt(table, key, link, title);
    forall i | 0 <= i < |table|
      ensures r[i] == table[i]
    {
      assert Keys(table)[i] == table[i].key;
    }
  }

  /** The guard, as a predicate on links for a fixed page oracle. */
  function AcceptedBy(observe: string -> Observation): string -> bool {
    (l: string) => Accepted(observe(l))
  }

  /** The keys of the accepted links, in processing order. */
  function AcceptedKeys(links: seq<string>, observe: string -> Observation): seq<string> {
    if links == [] then []
    else
      var n := |links| - 1;
      var o := observe(links[n]);
      AcceptedKeys(links[..n], observe) + (if Accepted(o) then [SellerKey(o)] else [])
  }

  /** A record is created once per key, in the order keys first appear. */
  lemma {:induction false} MergeAllKeys(links: seq<string>, observe: string -> Observation)
    ensures Keys(MergeAll(links, observe)) == Dedup(AcceptedKeys(links, observe))
    ensures WellKeyed(MergeAll(links, observe))
  {
    if links != [] {
      var n := |links| - 1;
      var init := links[..n];
      var o := observe(links[n]);
      MergeAllKeys(init, observe);
      var t := MergeAll(init, observe);
      assert MergeAll(links, observe) == MergeStep(t, links[n], o);
      if Accepted(o) {
        var key := SellerKey(o);
        var t1 := if key in Keys(t) then t else t + [Entry(key, NewRecord(o.info.value))];
        assert Keys(t1) == if key in Keys(t) then Keys(t) else Keys(t) + [key];
        var ak := AcceptedKeys(init, observe);
        assert AcceptedKeys(links, observe) == ak + [key];
        assert (ak + [key])[..|ak|] == ak;
        assert key in ak <==> key in Keys(t);
      } else {
        assert AcceptedKeys(links, observe) == AcceptedKeys(init, observe);
      }
    }
  }

  /** A key is among the accepted keys iff some accepted link is filed under it. */
  lemma {:induction false} AcceptedKeysMembers(links: seq<string>, observe: string -> Observation, key: string)
    ensures key in AcceptedKeys(links, observe) <==>
      exists k | 0 <= k < |links| :: Accepted(observe(links[k])) && SellerKey(observe(links[k])) == key
  {
    if links != [] {
      var n := |links| - 1;
      var init := links[..n];
      AcceptedKeysMembers(init, observe, key);
      if exists k | 0 <= k < |links| :: Accepted(observe(links[k])) && SellerKey(observe(links[k])) == key {
        var k :| 0 <= k < |links| && Accepted(observe(links[k])) && SellerKey(observe(links[k])) == key;
        if k < n {
          assert init[k] == links[k];
        }
      }
      if key in AcceptedKeys(init, observe) {
        var k :| 0 <= k < |init| && Accepted(observe(init[k])) && SellerKey(observe(init[k])) == key;
        assert links[k] == init[k];
      }
    }
  }

  /** A key is in the merged table exactly when some accepted link is filed under it. */
  lemma MergedKeys(links: seq<string>, observe: string -> Observation, key: string)
    ensures key in Keys(MergeAll(links, observe)) <==>
      exists k | 0 <= k < |links| :: Accepted(observe(links[k])) && SellerKey(observe(links[k])) == key
  {
    MergeAllKeys(links, observe);
    AcceptedKeysMembers(links, observe, key);
  }

  /** Every entry under `key` carries the company name and INN of `info`, each defaulting to
      "Не найдено". */
  predicate InfoUnder(table: seq<Entry>, key: string, info: Info) {
    forall i | 0 <= i < |table| && table[i].key == key ::
      && table[i].rec.companyName == Some(GetOr(info.companyName, NotFound))
      && table[i].rec.inn == Some(GetOr(info.inn, NotFound))
  }

  /** A link filed under an existing key leaves every seller's company name and INN alone. */
  lemma {:induction false} InfoUnderStep(t: seq<Entry>, l: string, o: Observation, key: string, info: Info)
    requires InfoUnder(t, key, info)
    requires Accepted(o) && SellerKey(o) == key ==> key in Keys(t)
    ensures InfoUnder(MergeStep(t, l, o), key, info)
  {
    var m := MergeStep(t, l, o);
    MergeStepEntries(t, l, o);
    if Accepted(o) {
      forall i | 0 <= i < |m| && m[i].key == key
        ensures m[i].rec.companyName == Some(GetOr(info.companyName, NotFound))
        ensures m[i].rec.inn == Some(GetOr(info.inn, NotFound))
      {
        MergeStepOldKey(t, l, o, key, i);
      }
    }
  }

  /** Under a key that was already present, or that the link does not file under, every entry
      of the stepped table is an old one. */
  lemma MergeStepOldKey(t: seq<Entry>, l: string, o: Observation, key: string, i: nat)
    requires Accepted(o) && (SellerKey(o) == key ==> key in Keys(t))
    requires i < |MergeStep(t, l, o)| && MergeStep(t, l, o)[i].key == key
    ensures i < |t|
  {
    var m := MergeStep(t, l, o);
    MergeStepEntries(t, l, o);
    if SellerKey(o) == key {
      assert |m| == |t|;
    } else {
      assert m[i].key != SellerKey(o);
    }
  }

  /** The first link filed under a key creates its record from that link's details. */
  lemma {:induction false} InfoUnderFirst(t: seq<Entry>, l: string, o: Observation)
    requires Accepted(o) && SellerKey(o) !in Keys(t)
    ensures InfoUnder(MergeStep(t, l, o), SellerKey(o), o.info.value)
  {
    var m, key := MergeStep(t, l, o), SellerKey(o);
    MergeStepEntries(t, l, o);
    forall i | 0 <= i < |m| && m[i].key == key
      ensures m[i].rec.companyName == Some(GetOr(o.info.value.companyName, NotFound))
      ensures m[i].rec.inn == Some(GetOr(o.info.value.inn, NotFound))
    {
      assert i == |t|;
    }
  }

  /** A seller's company name and INN are those of the first accepted link filed under its
      key, defaulting to "Не найдено": later links under the key only count products and
      add samples. */
  lemma {:induction false} MergeAllFirstInfo(links: seq<string>, observe: string -> Observation, j: nat)
    requires j < |links| && Accepted(observe(links[j]))
    requires forall k | 0 <= k < j :: Accepted(observe(links[k])) ==> SellerKey(observe(links[k])) != SellerKey(observe(links[j]))
    ensures InfoUnder(MergeAll(links, observe), SellerKey(observe(links[j])), observe(links[j]).info.value)
  {
    var o, key := observe(links[j]), SellerKey(observe(links[j]));
    var n := |links| - 1;
    var init := links[..n];
    var t, o' := MergeAll(init, observe), observe(links[n]);
    if j == n {
      MergeAllFirstAtLast(links, observe);
    } else {
      MergeAllLast(links, observe);
      assert forall k | 0 <= k < n :: init[k] == links[k];
      MergeAllFirstInfo(init, observe, j);
      MergedKeys(init, observe, key);
      assert Accepted(observe(init[j])) && SellerKey(observe(init[j])) == key;
      InfoUnderStep(t, links[n], o', key, o.info.value);
    }
  }

  /** The last link, when it is the first accepted one under its key, creates that record. */
  lemma MergeAllFirstAtLast(links: seq<string>, observe: string -> Observation)
    requires links != [] && Accepted(observe(links[|links| - 1]))
    requires forall k | 0 <= k < |links| - 1 ::
      Accepted(observe(links[k])) ==> SellerKey(observe(links[k])) != SellerKey(observe(links[|links| - 1]))
    ensures InfoUnder(MergeAll(links, observe), SellerKey(observe(links[|links| - 1])), observe(links[|links| - 1]).info.value)
  {
    var n := |links| - 1;
    var init, o := links[..n], observe(links[n]);
    var t := MergeAll(init, observe);
    assert MergeAll(links, observe) == MergeStep(t, links[n], o);
    forall k | 0 <= k < n && Accepted(observe(init[k]))
      ensures SellerKey(observe(init[k])) != SellerKey(o)
    {
      assert init[k] == links[k];
    }
    MergedKeys(init, observe, SellerKey(o));
    InfoUnderFirst(t, links[n], o);
  }

  lemma {:induction false} OccurrencesSnoc(keys: seq<string>, key: string, x: string)
    ensures Occurrences(keys + [key], x) == Occurrences(keys, x) + (if x == key then 1 else 0)
  {
    assert (keys + [key])[..|keys|] == keys;
  }

  /** Each entry's count is the number of times its key occurs in `keys`. */
  predicate CountsMatch(table: seq<Entry>, keys: seq<string>) {
    forall i | 0 <= i < |table| :: table[i].rec.productsCount == Occurrences(keys, table[i].key)
  }

  /** One more link keeps each count equal to the occurrences of its key among the accepted
      keys. */
  lemma {:induction false} CountsMatchStep(t: seq<Entry>, keys: seq<string>, l: string, o: Observation)
    requires CountsMatch(t, keys)
    requires forall x :: x in Keys(t) <==> x in keys
    ensures CountsMatch(MergeStep(t, l, o), keys + if Accepted(o) then [SellerKey(o)] else [])
  {
    var m := MergeStep(t, l, o);
    MergeStepEntries(t, l, o);
    if Accepted(o) {
      var key := SellerKey(o);
      forall i | 0 <= i < |m|
        ensures m[i].rec.productsCount == Occurrences(keys + [key], m[i].key)
      {
        OccurrencesSnoc(keys, key, m[i].key);
        if i >= |t| {
          AbsentNone(keys, key);
        }
      }
    } else {
      assert keys + [] == keys;
    }
  }

  /** Each seller's `products_count` is the number of accepted links filed under its key. */
  lemma {:induction false} MergeAllKeyCount(links: seq<string>, observe: string -> Observation)
    ensures CountsMatch(MergeAll(links, observe), AcceptedKeys(links, observe))
  {
    if links != [] {
      var n := |links| - 1;
      var init := links[..n];
      var t, o := MergeAll(init, observe), observe(links[n]);
      MergeAllKeyCount(init, observe);
      MergeAllKeys(init, observe);
      assert MergeAll(links, observe) == MergeStep(t, links[n], o);
      CountsMatchStep(t, AcceptedKeys(init, observe), links[n], o);
    }
  }

  /** `products_count` rises by exactly one per accepted link. */
  lemma {:induction false} MergeAllCount(links: seq<string>, observe: string -> Observation)
    ensures TotalCount(MergeAll(links, observe)) == Count(links, AcceptedBy(observe))
  {
    if links != [] {
      var n := |links| - 1;
      var o := observe(links[n]);
      MergeAllCount(links[..n], observe);
      MergeAllKeys(links[..n], observe);
      CountSnoc(links, AcceptedBy(observe));
      if Accepted(o) {
        MergeStepCount(MergeAll(links[..n], observe), links[n], o);
      }
    }
  }

  lemma MergeStepCount(t: seq<Entry>, l: string, o: Observation)
    requires WellKeyed(t) && Accepted(o)
    ensures TotalCount(MergeStep(t, l, o)) == TotalCount(t) + 1
  {
    var key := SellerKey(o);
    if key in Keys(t) {
      TotalCountAt(t, key, l, o.title);
    } else {
      var t1 := t + [Entry(key, NewRecord(o.info.value))];
      assert Keys(t1) == Keys(t) + [key];
      assert WellKeyed(t1) by {
        assert Distinct(Keys(t) + [key]);
      }
      TotalCountAppend(t, Entry(key, NewRecord(o.info.value)));
      TotalCountAt(t1, key, l, o.title);
    }
  }

  /** No record ever holds more than three samples. */
  lemma {:induction false} MergeAllSampleCap(links: seq<string>, observe: string -> Observation)
    ensures forall i | 0 <= i < |MergeAll(links, observe)| :: |MergeAll(links, observe)[i].rec.samples| <= SampleCap
  {
    if links != [] {
      var n := |links| - 1;
      MergeAllSampleCap(links[..n], observe);
      MergeStepSampleCap(MergeAll(links[..n], observe), links[n], observe(links[n]));
    }
  }

  lemma MergeStepSampleCap(t: seq<Entry>, l: string, o: Observation)
    requires forall i | 0 <= i < |t| :: |t[i].rec.samples| <= SampleCap
    ensures forall i | 0 <= i < |MergeStep(t, l, o)| :: |MergeStep(t, l, o)[i].rec.samples| <= SampleCap
  {
    if Accepted(o) {
      var key := SellerKey(o);
      var t1 := if key in Keys(t) then t else t + [Entry(key, NewRecord(o.info.value))];
      assert forall i | 0 <= i < |t1| :: |t1[i].rec.samples| <= SampleCap;
      assert MergeStep(t, l, o) == CountAt(t1, key, l, o.title);
    }
  }

  /** How many links pass the guard does not depend on the order the updates happened in. */
  lemma {:induction false} CountPermutation<T>(a: seq<T>, b: seq<T>, p: T -> bool)
    requires multiset(a) == multiset(b)
    ensures Count(a, p) == Count(b, p)
    decreases |a|
  {
    if a == [] {
      assert |b| == |multiset(b)| == 0;
    } else {
      var x := a[0];
      assert x in multiset(b);
      var k :| 0 <= k < |b| && b[k] == x;
      var rest := b[..k] + b[k + 1..];
      assert b == b[..k] + ([x] + b[k + 1..]);
      assert multiset(b) == multiset(b[..k]) + multiset{x} + multiset(b[k + 1..]);
      assert a == [x] + a[1..];
      assert multiset(a) == multiset{x} + multiset(a[1..]);
      assert multiset(rest) == multiset(b[..k]) + multiset(b[k + 1..]);
      assert multiset(a[1..]) == multiset(a) - multiset{x};
      assert multiset(rest) == multiset(b) - multiset{x};
      CountPermutation(a[1..], rest, p);
      CountAppend(b[..k], [x] + b[k + 1..], p);
      CountAppend(b[..k], b[k + 1..], p);
      assert ([x] + b[k + 1..])[1..] == b[k + 1..];
    }
  }

  /** `parse_sellers_from_links`, with the workers' updates taken shard after shard. */
  function ParseSellersFromLinks(links: seq<string>, observe: string -> Observation): seq<Entry> {
    MergeAll(Concat(RoundRobin(links, WorkersCount)), observe)
  }

  /** The total product count equals the number of accepted links, whatever the sharding. */
  lemma ParseSellersCount(links: seq<string>, observe: string -> Observation)
    ensures TotalCount(ParseSellersFromLinks(links, observe)) == Count(links, AcceptedBy(observe))
    ensures WellKeyed(ParseSellersFromLinks(links, observe))
  {
    var order := Concat(RoundRobin(links, WorkersCount));
    MergeAllCount(order, observe);
    MergeAllKeys(order, observe);
    RoundRobinPartition(links, WorkersCount);
    CountPermutation(order, links, AcceptedBy(observe));
  }

  // ---------------------------------------------------------------------------
  // The INN text file (lines 374-379)
  // ---------------------------------------------------------------------------

  /** The loop of `save_inn_to_txt`: each usable INN appended unless already listed. */
  function InnList(table: seq<Entry>): seq<string> {
    if table == [] then []
    else
      var n := |table| - 1;
      var acc := InnList(table[..n]);
      var inn := InnOf(table[n]);
      if inn != [] && inn != NotFound && inn !in acc then acc + [inn] else acc
  }

  /** The loop is a deduplication of the usable INNs. */
  lemma {:induction false} InnListIsDedup(table: seq<Entry>)
    ensures InnList(table) == Dedup(UsableInns(table))
  {
    if table != [] {
      var n := |table| - 1;
      InnListIsDedup(table[..n]);
      var u := UsableInns(table[..n]);
      var inn := InnOf(table[n]);
      if UsableInn(inn) {
        assert UsableInns(table) == u + [inn];
        DedupSnoc(u, inn);
      } else {
        assert UsableInns(table) == u;
      }
    }
  }

  lemma DedupSnoc(u: seq<string>, x: string)
    ensures Dedup(u + [x]) == if x in Dedup(u) then Dedup(u) else Dedup(u) + [x]
  {
    assert (u + [x])[..|u|] == u;
  }

  /** The written INNs are distinct, usable, exactly those of the table, and in the order
      they first occur. */
  lemma InnListProperties(table: seq<Entry>)
    ensures Distinct(InnList(table))
    ensures forall x :: x in InnList(table) <==> x in UsableInns(table)
    ensures forall x :: x in InnList(table) <==> UsableInn(x) && exists i | 0 <= i < |table| :: InnOf(table[i]) == x
    ensures forall i, j | 0 <= i < j < |InnList(table)| ::
      FirstIndex(UsableInns(table), InnList(table)[i]) < FirstIndex(UsableInns(table), InnList(table)[j])
  {
    InnListIsDedup(table);
    DedupFirstOccurrenceOrder(UsableInns(table));
    forall x
      ensures x in InnList(table) <==> UsableInn(x) && exists i | 0 <= i < |table| :: InnOf(table[i]) == x
    {
      UsableInnsMembers(table, x);
    }
  }

  // ---------------------------------------------------------------------------
  // The spreadsheet (lines 299-352)
  // ---------------------------------------------------------------------------

  const Headers: seq<string> := ["Название компании", "ИНН", "Ссылка на товар"]

  /** The rows one seller contributes: one per sample, or a single row without a link. */
  function SellerRows(e: Entry): (r: seq<seq<string>>)
    ensures |r| == if e.rec.samples == [] then 1 else |e.rec.samples|
    ensures forall k | 0 <= k < |r| ::
      r[k] == [GetOr(e.rec.companyName, NotFound), GetOr(e.rec.inn, NotFound),
               if e.rec.samples == [] then "" else e.rec.samples[k].url]
  {
    var company := GetOr(e.rec.companyName, NotFound);
    var inn := GetOr(e.rec.inn, NotFound);
    if e.rec.samples == [] then [[company, inn, ""]]
    else seq(|e.rec.samples|, k requires 0 <= k < |e.rec.samples| => [company, inn, e.rec.samples[k].url])
  }

  /** The data rows, from spreadsheet row 2 on. */
  function DataRows(table: seq<Entry>): seq<seq<string>> {
    RowsOf(table, SellerRows)
  }

  /** `f"A1:C{row-1}"` with `row` the first unused row. */
  function FilterRef(table: seq<Entry>): string {
    "A1:C" + NatToString(|DataRows(table)| + 1)
  }

  /** Seller `j`'s `k`-th row is spreadsheet row `2 + (rows of sellers before j) + k`, and the
      auto-filter ends at the last row written. */
  lemma SheetLayout(table: seq<Entry>, j: nat, k: nat)
    requires j < |table| && k < |SellerRows(table[j])|
    ensures 1 + |DataRows(table[..j])| + k < |SheetOf(Headers, table, SellerRows)|
    ensures SheetOf(Headers, table, SellerRows)[1 + |DataRows(table[..j])| + k] == SellerRows(table[j])[k]
    ensures FilterRef(table) == "A1:C" + NatToString(|SheetOf(Headers, table, SellerRows)|)
  {
    SheetRowAt(Headers, table, SellerRows, j, k);
  }

  // ---------------------------------------------------------------------------
  // The summary message (lines 576-594)
  // ---------------------------------------------------------------------------

  /** Puts `e` before the first entry whose count is not larger. */
  function InsertByCount(e: Entry, s: seq<Entry>): (r: seq<Entry>)
    ensures multiset(r) == multiset(s) + multiset{e}
  {
    if s == [] || s[0].rec.productsCount <= e.rec.productsCount then [e] + s
    else
      assert s == [s[0]] + s[1..];
      [s[0]] + InsertByCount(e, s[1..])
  }

  /** `sorted(items, key=products_count, reverse=True)`. */
  function SortByCount(table: seq<Entry>): (r: seq<Entry>)
    ensures multiset(r) == multiset(table)
  {
    if table == [] then []
    else
      assert table == [table[0]] + table[1..];
      InsertByCount(table[0], SortByCount(table[1..]))
  }

  predicate NonIncreasing(s: seq<Entry>) {
    forall i, j | 0 <= i < j < |s| :: s[i].rec.productsCount >= s[j].rec.productsCount
  }

  lemma {:induction false} InsertKeepsOrder(e: Entry, s: seq<Entry>)
    requires NonIncreasing(s)
    ensures NonIncreasing(InsertByCount(e, s))
  {
    if s != [] && s[0].rec.productsCount > e.rec.productsCount {
      InsertKeepsOrder(e, s[1..]);
      var r := InsertByCount(e, s[1..]);
      assert multiset(r) == multiset(s[1..]) + multiset{e};
      forall j | 0 < j < |r| + 1
        ensures s[0].rec.productsCount >= ([s[0]] + r)[j].rec.productsCount
      {
        var x := r[j - 1];
        assert x in multiset(r);
        if x != e {
          assert x in s[1..];
        }
      }
    }
  }

  /** The entries with a given count, in order. */
  function WithCount(s: seq<Entry>, c: nat): seq<Entry> {
    if s == [] then [] else (if s[0].rec.productsCount == c then [s[0]] else []) + WithCount(s[1..], c)
  }

  lemma {:induction false} InsertStable(e: Entry, s: seq<Entry>, c: nat)
    ensures WithCount(InsertByCount(e, s), c) == (if e.rec.productsCount == c then [e] else []) + WithCount(s, c)
  {
    if s != [] && s[0].rec.productsCount > e.rec.productsCount {
      InsertStable(e, s[1..], c);
      WithCountCons(s[0], InsertByCount(e, s[1..]), c);
      WithCountCons(s[0], s[1..], c);
      assert s == [s[0]] + s[1..];
    } else {
      WithCountCons(e, s, c);
    }
  }

  lemma WithCountCons(x: Entry, s: seq<Entry>, c: nat)
    ensures WithCount([x] + s, c) == (if x.rec.productsCount == c then [x] else []) + WithCount(s, c)
  {
    assert ([x] + s)[1..] == s;
  }

  /** Sellers are listed by non-increasing product count; sellers with equal counts keep
      their dictionary order (Python's sort is stable); nobody is lost or repeated. */
  lemma {:induction false} SortByCountCorrect(table: seq<Entry>)
    ensures NonIncreasing(SortByCount(table))
    ensures multiset(SortByCount(table)) == multiset(table)
    ensures forall c: nat :: WithCount(SortByCount(table), c) == WithCount(table, c)
  {
    if table != [] {
      SortByCountCorrect(table[1..]);
      InsertKeepsOrder(table[0], SortByCount(table[1..]));
      forall c: nat
        ensures WithCount(SortByCount(table), c) == WithCount(table, c)
      {
        InsertStable(table[0], SortByCount(table[1..]), c);
      }
    }
  }

  const NoSellersMessage: string := "\U{274C} Продавцы не найдены"
  const ReportFooter: string := "\U{1F4C1} Файлы с подробными данными отправлены отдельно"

  /** The two header lines of the message, with the number of sellers. */
  function ReportHeader(n: nat): string {
    "\U{1F4CA} **Результаты парсинга категории**\n\n"
    + "\U{1F50D} Найдено продавцов: **" + NatToString(n) + "**\n\n"
  }

  /** One seller's block of the message. */
  function SellerBlock(i: nat, e: Entry): string {
    "**" + NatToString(i) + ". " + GetOr(e.rec.companyName, NotFound) + "**\n"
    + "   \U{1F4CB} ИНН: `" + GetOr(e.rec.inn, NotFound) + "`\n"
    + "   \U{1F4E6} Товаров найдено: " + NatToString(e.rec.productsCount) + "\n\n"
  }

  /** The blocks of `s`, numbered from `i`, as the `enumerate` loop appends them. */
  function SellerBlocks(s: seq<Entry>, i: nat): string {
    if s == [] then [] else SellerBlock(i, s[0]) + SellerBlocks(s[1..], i + 1)
  }

  /** The block list: the `k`-th block shows `s[k]` under number `i + k`. */
  function Numbered(s: seq<Entry>, i: nat): (r: seq<string>)
    ensures |r| == |s| && forall k | 0 <= k < |s| :: r[k] == SellerBlock(i + k, s[k])
  {
    seq(|s|, k requires 0 <= k < |s| => SellerBlock(i + k, s[k]))
  }

  lemma {:induction false} SellerBlocksNumbered(s: seq<Entry>, i: nat)
    ensures SellerBlocks(s, i) == Flatten(Numbered(s, i))
  {
    if s != [] {
      SellerBlocksNumbered(s[1..], i + 1);
      var b := Numbered(s, i);
      assert b[1..] == Numbered(s[1..], i + 1);
    }
  }

  /** `format_results` on the sellers of a run: "no sellers" for none; otherwise the header
      with their number, one block per seller, then the footer. */
  function FormatResults(table: seq<Entry>): (r: string)
    ensures r == NoSellersMessage <==> table == []
    ensures table != [] ==> StartsWith(r, ReportHeader(|table|))
  {
    if table == [] then NoSellersMessage
    else
      var r := ReportHeader(|table|) + SellerBlocks(SortByCount(table), 1) + ReportFooter;
      assert r[0] != NoSellersMessage[0];
      assert r[..|ReportHeader(|table|)|] == ReportHeader(|table|);
      r
  }

  /** The message lists every seller once, by non-increasing product count with ties in
      dictionary order, block `k` numbered `k + 1`, between the header and the footer. */
  lemma FormatResultsContent(table: seq<Entry>)
    requires table != []
    ensures var s := SortByCount(table);
      && FormatResults(table) == ReportHeader(|table|) + Flatten(Numbered(s, 1)) + ReportFooter
      && NonIncreasing(s) && multiset(s) == multiset(table)
      && forall c: nat :: WithCount(s, c) == WithCount(table, c)
  {
    SortByCountCorrect(table);
    SellerBlocksNumbered(SortByCount(table), 1);
  }

  // ---------------------------------------------------------------------------
  // parse_category (lines 504-545) and format_results as written (lines 576-594)
  // ---------------------------------------------------------------------------

  /** The `_files` entry: the paths the two savers returned and the category name. */
  datatype FilesInfo = FilesInfo(excel: Option<string>, txt: Option<string>, categoryName: string)

  /** What `parse_category` returns: the seller entries, then the `_files` entry when it was
      added. */
  datatype SellersData = SellersData(sellers: seq<Entry>, files: Option<FilesInfo>)

  /** `parse_category` on the links stage 1 collected; `excel` and `txt` are what the two
      savers returned. An empty link list gives `{}`; a run that found sellers gets the
      `_files` entry. */
  function ParseCategory(url: string, links: seq<string>, observe: string -> Observation,
                         excel: Option<string>, txt: Option<string>): (r: SellersData)
    ensures links == [] ==> r == SellersData([], None)
    ensures r.files.Some? <==> r.sellers != []
    ensures r.files.Some? ==> r.files.value.categoryName == UrlUtils.CategoryName(url)
    ensures links != [] ==> r.sellers == ParseSellersFromLinks(links, observe)
  {
    if links == [] then SellersData([], None)
    else
      var sellers := ParseSellersFromLinks(links, observe);
      if sellers == [] then SellersData([], None)
      else SellersData(sellers, Some(FilesInfo(excel, txt, UrlUtils.CategoryName(url))))
  }

  /** What evaluating `format_results` gave: the message, or the text of the exception. */
  datatype Formatted = Formatted(text: string) | FormatError(error: string)

  /** `str(KeyError('products_count'))`. */
  const MissingCountError: string := "'products_count'"

  /** `format_results` as written, on the whole dictionary: the sort key
      `x[1]['products_count']` is looked up on every item, and the `_files` item has no such
      key, so the sort raises `KeyError`. A dictionary without it gives the message. */
  function FormatResultsAsWritten(d: SellersData): (r: Formatted)
    ensures d.files.Some? ==> r == FormatError(MissingCountError)
    ensures d.files.None? ==> r.Formatted? && (r.text == NoSellersMessage <==> d.sellers == [])
  {
    if d.sellers == [] && d.files.None? then Formatted(NoSellersMessage)
    else if d.files.Some? then FormatError(MissingCountError)
    else Formatted(FormatResults(d.sellers))
  }

  /** On what `parse_category` returns, `format_results` as written gives a message only for
      a run without sellers, and that message is "no sellers"; every run that found a seller
      makes it raise. */
  lemma OnlyEmptyRunsFormat(url: string, links: seq<string>, observe: string -> Observation,
                            excel: Option<string>, txt: Option<string>)
    ensures var d := ParseCategory(url, links, observe, excel, txt);
      FormatResultsAsWritten(d) == if d.sellers == [] then Formatted(NoSellersMessage) else FormatError(MissingCountError)
  {
  }
}
