/** A job over ingested chunks (map_reduce.h:289-507): every chunk is mapped into the same container, then the lists of
    each partition are joined. */
module IngestJob {
  import opened Collections
  import opened BitMask
  import opened OpenAddressing
  import opened HashTable
  import opened HashContainer
  import opened IngestChunks
  import Combiner
  import Pool = ThreadPool
  import Rounds

  // What a user supplies: the records of some lines, and the pairs that a record emits.
  datatype Program<!D, K, V> = Program(records: seq<Byte> -> seq<D>, emit: D -> seq<(K, V)>)

  // Records do not span lines: cutting behind a newline cuts no record.
  ghost predicate LineBased<D, K, V>(prog: Program<D, K, V>) {
    && prog.records([]) == []
    && forall a, b :: EndsLine(a) ==> prog.records(a + b) == prog.records(a) + prog.records(b)
  }

  // All pairs that the records emit.
  ghost function Emits<D, K, V>(prog: Program<D, K, V>, ds: seq<D>): multiset<(K, V)> {
    if ds == [] then multiset{} else Emits(prog, ds[..|ds| - 1]) + multiset(prog.emit(ds[|ds| - 1]))
  }

  lemma {:induction false} EmitsConcat<D, K, V>(prog: Program<D, K, V>, a: seq<D>, b: seq<D>)
    ensures Emits(prog, a + b) == Emits(prog, a) + Emits(prog, b)
  {
    if b == [] {
      assert a + b == a;
    } else {
      var n := |b| - 1;
      EmitsConcat(prog, a, b[..n]);
      assert (a + b)[..|a + b| - 1] == a + b[..n] && (a + b)[|a + b| - 1] == b[n];
      EmitsLast(prog, a + b);
      EmitsLast(prog, b);
      hide Emits;
    }
  }

  lemma EmitsLast<D, K, V>(prog: Program<D, K, V>, ds: seq<D>)
    requires ds != []
    ensures Emits(prog, ds) == Emits(prog, ds[..|ds| - 1]) + multiset(prog.emit(ds[|ds| - 1]))
  {
  }

  lemma EmitsNext<D, K, V>(prog: Program<D, K, V>, ds: seq<D>, i: nat)
    requires i < |ds|
    ensures Emits(prog, ds[..i + 1]) == Emits(prog, ds[..i]) + multiset(prog.emit(ds[i]))
  {
    assert ds[..i + 1][..i] == ds[..i];
  }

  // ------------------------------------------------------------------ one map thread

  // Every record only emits keys of the set, which is small enough for the int in const_iterator.
  ghost predicate KeysAmong<D, K, V>(prog: Program<D, K, V>, ds: seq<D>, keys: set<K>) {
    && |keys| < 0x2000_0000
    && forall i, j :: 0 <= i < |ds| && 0 <= j < |prog.emit(ds[i])| ==> prog.emit(ds[i])[j].0 in keys
  }

  ghost predicate Among<K, V>(keys: set<K>, pairs: seq<(K, V)>) {
    forall j :: 0 <= j < |pairs| ==> pairs[j].0 in keys
  }

  lemma {:induction false} SubsetSize<K>(a: set<K>, b: set<K>)
    requires a <= b
    ensures |a| <= |b|
  {
    if a != {} {
      var x :| x in a;
      SubsetSize(a - {x}, b - {x});
    }
  }

  lemma SizeBound<K, V>(m: map<K, V>, keys: set<K>, size: nat)
    requires m.Keys <= keys && |keys| < 0x2000_0000 && (size == 256 || size <= 4 * |m|)
    ensures size < 0x8000_0000
  {
    SubsetSize(m.Keys, keys);
    assert |m.Keys| == |m|;
  }

  // The user's map function on one record.
  method MapOne<K(==, !new), V(!new)>(pairs: seq<(K, V)>, t: HashTable<K, seq<V>>, ghost em: multiset<(K, V)>,
                                      ghost keys: set<K>)
    requires t.Valid() && t.blank == [] && Represents(t.m, em) && t.m.Keys <= keys && Among(keys, pairs)
    modifies t, t.table, t.occupied
    ensures t.Valid() && Represents(t.m, em + multiset(pairs)) && t.m.Keys <= keys
    ensures (fresh(t.table) && fresh(t.occupied)) || (t.table == old(t.table) && t.occupied == old(t.occupied))
  {
    hide Represents;
    var i := 0;
    assert em + multiset(pairs[..0]) == em;
    while i < |pairs|
      invariant i <= |pairs| && t.Valid() && Represents(t.m, em + multiset(pairs[..i])) && t.m.Keys <= keys
      invariant (fresh(t.table) && fresh(t.occupied)) || (t.table == old(t.table) && t.occupied == old(t.occupied))
    {
      EmitIntermediate(t, pairs[i].0, pairs[i].1, em + multiset(pairs[..i]));
      PairsMore(pairs, i, em);
      i := i + 1;
    }
    assert pairs[..i] == pairs;
  }

  lemma PairsMore<K, V>(pairs: seq<(K, V)>, i: nat, em: multiset<(K, V)>)
    requires i < |pairs|
    ensures em + multiset(pairs[..i + 1]) == em + multiset(pairs[..i]) + multiset{(pairs[i].0, pairs[i].1)}
  {
    assert pairs[..i + 1] == pairs[..i] + [pairs[i]] && (pairs[i].0, pairs[i].1) == pairs[i];
  }

  lemma AmongAt<D, K, V>(prog: Program<D, K, V>, data: seq<D>, keys: set<K>, i: nat)
    requires KeysAmong(prog, data, keys) && i < |data|
    ensures Among(keys, prog.emit(data[i]))
  {
  }

  // One map task: the records of a range.
  method MapTask<D, K(==, !new), V(!new)>(prog: Program<D, K, V>, data: seq<D>, t: HashTable<K, seq<V>>,
                                          ghost em: multiset<(K, V)>, ghost keys: set<K>)
    requires t.Valid() && t.blank == [] && Represents(t.m, em) && t.m.Keys <= keys && KeysAmong(prog, data, keys)
    modifies t, t.table, t.occupied
    ensures t.Valid() && Represents(t.m, em + Emits(prog, data)) && t.m.Keys <= keys
    ensures (fresh(t.table) && fresh(t.occupied)) || (t.table == old(t.table) && t.occupied == old(t.occupied))
  {
    var i := 0;
    assert em + Emits(prog, data[..0]) == em;
    hide Represents, Emits, KeysAmong, Among, Power, Fits, Stores, Count;
    while i < |data|
      invariant i <= |data| && t.Valid() && Represents(t.m, em + Emits(prog, data[..i])) && t.m.Keys <= keys
      invariant (fresh(t.table) && fresh(t.occupied)) || (t.table == old(t.table) && t.occupied == old(t.occupied))
    {
      EmitsNext(prog, data, i);
      AmongAt(prog, data, keys, i);
      MapOne(prog.emit(data[i]), t, em + Emits(prog, data[..i]), keys);
      assert em + Emits(prog, data[..i + 1]) == em + Emits(prog, data[..i]) + multiset(prog.emit(data[i]));
      i := i + 1;
    }
    assert data[..i] == data;
  }

  // ------------------------------------------------------------------ all map threads

  ghost function TaskEmits<D, K, V>(prog: Program<D, K, V>, data: seq<D>, made: seq<(nat, nat)>,
                                    t: nat): multiset<(K, V)> {
    if t < |made| && made[t].0 + made[t].1 <= |data|
    then Emits(prog, data[made[t].0..made[t].0 + made[t].1]) else multiset{}
  }

  // What a set of tasks emits.
  ghost function TasksEmit<D, K, V>(prog: Program<D, K, V>, data: seq<D>, made: seq<(nat, nat)>,
                                    ts: set<nat>): multiset<(K, V)> {
    if ts == {} then multiset{} else
      var t :| t in ts;
      TaskEmits(prog, data, made, t) + TasksEmit(prog, data, made, ts - {t})
  }

  lemma {:induction false} TakeTask<D, K, V>(prog: Program<D, K, V>, data: seq<D>, made: seq<(nat, nat)>, ts: set<nat>,
                                             x: nat)
    requires x in ts
    ensures TasksEmit(prog, data, made, ts) == TaskEmits(prog, data, made, x) + TasksEmit(prog, data, made, ts - {x})
    decreases |ts|
  {
    hide TaskEmits;
    var t :| t in ts && TasksEmit(prog, data, made, ts) ==
                        TaskEmits(prog, data, made, t) + TasksEmit(prog, data, made, ts - {t});
    if t != x {
      TakeTask(prog, data, made, ts - {t}, x);
      TakeTask(prog, data, made, ts - {x}, t);
      assert ts - {t} - {x} == ts - {x} - {t};
    }
  }

  lemma {:induction false} SplitTasks<D, K, V>(prog: Program<D, K, V>, data: seq<D>, made: seq<(nat, nat)>, a: set<nat>,
                                               b: set<nat>)
    requires a <= b
    ensures TasksEmit(prog, data, made, b) == TasksEmit(prog, data, made, a) + TasksEmit(prog, data, made, b - a)
    decreases |a|
  {
    hide TasksEmit;
    if a == {} {
      NoTaskEmits(prog, data, made);
      assert b - a == b;
    } else {
      var x :| x in a;
      TakeTask(prog, data, made, a, x);
      TakeTask(prog, data, made, b, x);
      SplitTasks(prog, data, made, a - {x}, b - {x});
      assert b - {x} - (a - {x}) == b - a;
    }
  }

  lemma NoTaskEmits<D, K, V>(prog: Program<D, K, V>, data: seq<D>, made: seq<(nat, nat)>)
    ensures TasksEmit(prog, data, made, {}) == multiset{}
  {
  }

  lemma DataOfFirst<D>(data: seq<D>, tasks: seq<(nat, nat)>)
    requires tasks != [] && tasks[0].0 + tasks[0].1 <= |data|
    ensures DataOf(data, tasks) == data[tasks[0].0..tasks[0].0 + tasks[0].1] + DataOf(data, tasks[1..])
  {
  }

  lemma NoData<D>(data: seq<D>)
    ensures DataOf(data, []) == []
  {
  }

  lemma {:induction false} DataOfConcat<D>(data: seq<D>, a: seq<(nat, nat)>, b: seq<(nat, nat)>)
    requires forall t :: t in a ==> t.0 + t.1 <= |data|
    ensures DataOf(data, a + b) == DataOf(data, a) + DataOf(data, b)
  {
    NoData(data);
    hide DataOf;
    if a == [] {
      assert a + b == b;
    } else {
      assert (a + b)[1..] == a[1..] + b && (a + b)[0] == a[0] && a[0] in a;
      DataOfConcat(data, a[1..], b);
      DataOfFirst(data, a);
      DataOfFirst(data, a + b);
    }
  }

  // All tasks together emit what the data emits.
  lemma {:induction false} AllTasksEmit<D, K, V>(prog: Program<D, K, V>, data: seq<D>, made: seq<(nat, nat)>, n: nat)
    requires n <= |made| && forall t :: t in made ==> t.0 + t.1 <= |data|
    ensures TasksEmit(prog, data, made, Below(n)) == Emits(prog, DataOf(data, made[..n]))
  {
    hide Emits, TasksEmit, DataOf;
    if n == 0 {
      NoTaskEmits(prog, data, made);
      NothingEmits(prog, data);
      assert made[..0] == [];
    } else {
      AllTasksEmit(prog, data, made, n - 1);
      TakeTask(prog, data, made, Below(n), n - 1);
      assert Below(n) - {n - 1} == Below(n - 1);
      assert made[..n] == made[..n - 1] + [made[n - 1]];
      DataOfConcat(data, made[..n - 1], [made[n - 1]]);
      DataOfOne(data, made[n - 1]);
      EmitsConcat(prog, DataOf(data, made[..n - 1]), DataOf(data, [made[n - 1]]));
    }
  }

  lemma NothingEmits<D, K, V>(prog: Program<D, K, V>, data: seq<D>)
    ensures Emits(prog, DataOf(data, [])) == multiset{}
  {
  }

  lemma DataOfOne<D>(data: seq<D>, t: (nat, nat))
    requires t.0 + t.1 <= |data|
    ensures DataOf(data, [t]) == data[t.0..t.0 + t.1]
  {
  }

  lemma RangeKeys<D, K, V>(prog: Program<D, K, V>, data: seq<D>, keys: set<K>, lo: nat, hi: nat)
    requires KeysAmong(prog, data, keys) && lo <= hi <= |data|
    ensures KeysAmong(prog, data[lo..hi], keys)
  {
    forall i, j | 0 <= i < hi - lo && 0 <= j < |prog.emit(data[lo..hi][i])|
      ensures prog.emit(data[lo..hi][i])[j].0 in keys
    {
      assert data[lo..hi][i] == data[lo + i];
    }
  }

  // map_worker: the tasks that this thread gets, in whatever order the task queue hands them out.
  method MapWorker<D, K(==, !new), V(!new)>(prog: Program<D, K, V>, blankKey: K, container: HashContainer<K, V>,
                                            thread: nat,
                                            data: seq<D>, made: seq<(nat, nat)>, mine: set<nat>, ghost keys: set<K>)
    requires container.Valid() && thread < container.inSize && KeysAmong(prog, data, keys)
    requires (forall t :: t in made ==> t.0 + t.1 <= |data|) && forall t :: t in mine ==> t < |made|
    modifies container.vals, container`emitted
    ensures container.Valid() && container.emitted == old(container.emitted) + TasksEmit(prog, data, made, mine)
  {
    var t := new HashTable<K, seq<V>>(container.kh, blankKey, []);
    ghost var em := MapTasks(prog, t, data, made, mine, keys);
    SizeBound(t.m, keys, t.size);
    hide Represents, TasksEmit, RowsOk, RowsPairs, Power, Fits, Stores, Count;
    var ok := container.Add(thread, t, em);
  }

  method MapTaskNumber<D, K(==, !new), V(!new)>(prog: Program<D, K, V>, t: HashTable<K, seq<V>>, data: seq<D>,
                                                made: seq<(nat, nat)>, task: nat, ghost em: multiset<(K, V)>,
                                                ghost keys: set<K>)
    requires t.Valid() && t.blank == [] && Represents(t.m, em) && t.m.Keys <= keys && KeysAmong(prog, data, keys)
    requires (forall x :: x in made ==> x.0 + x.1 <= |data|) && task < |made|
    modifies t, t.table, t.occupied
    ensures t.Valid() && Represents(t.m, em + TaskEmits(prog, data, made, task)) && t.m.Keys <= keys
    ensures (fresh(t.table) && fresh(t.occupied)) || (t.table == old(t.table) && t.occupied == old(t.occupied))
  {
    hide Represents, TaskEmits, Emits, KeysAmong, Power, Fits, Stores, Count;
    var (start, len) := made[task];
    RangeKeys(prog, data, keys, start, start + len);
    TaskEmitsIs(prog, data, made, task);
    MapTask(prog, data[start..start + len], t, em, keys);
  }

  method MapTasks<D, K(==, !new), V(!new)>(prog: Program<D, K, V>, t: HashTable<K, seq<V>>, data: seq<D>,
                                           made: seq<(nat, nat)>, mine: set<nat>, ghost keys: set<K>)
    returns (ghost em: multiset<(K, V)>)
    requires t.Valid() && t.blank == [] && t.m == map[] && KeysAmong(prog, data, keys)
    requires (forall x :: x in made ==> x.0 + x.1 <= |data|) && forall x :: x in mine ==> x < |made|
    modifies t, t.table, t.occupied
    ensures t.Valid() && Represents(t.m, em) && t.m.Keys <= keys && em == TasksEmit(prog, data, made, mine)
    ensures (fresh(t.table) && fresh(t.occupied)) || (t.table == old(t.table) && t.occupied == old(t.occupied))
  {
    em := multiset{};
    NoTaskEmits(prog, data, made);
    assert Represents(t.m, em);
    assert em + TasksEmit(prog, data, made, mine) == TasksEmit(prog, data, made, mine);
    hide Represents, TasksEmit, TaskEmits, Emits, KeysAmong, Power, Fits, Stores, Count;
    var left := mine;
    while left != {}
      invariant t.Valid() && Represents(t.m, em) && t.m.Keys <= keys && left <= mine
      invariant em + TasksEmit(prog, data, made, left) == TasksEmit(prog, data, made, mine)
      invariant (fresh(t.table) && fresh(t.occupied)) || (t.table == old(t.table) && t.occupied == old(t.occupied))
      decreases |left|
    {
      var task :| task in left;
      TakeTask(prog, data, made, left, task);
      MapTaskNumber(prog, t, data, made, task, em, keys);
      em := em + TaskEmits(prog, data, made, task);
      left := left - {task};
    }
  }

  lemma TaskEmitsIs<D, K, V>(prog: Program<D, K, V>, data: seq<D>, made: seq<(nat, nat)>, t: nat)
    requires t < |made| && made[t].0 + made[t].1 <= |data|
    ensures TaskEmits(prog, data, made, t) == Emits(prog, data[made[t].0..made[t].0 + made[t].1])
  {
  }

  // run_map: the tasks are shared out among the workers in any way; the last ones to look find the queues empty. Worker
  // number i of the round is the thread that the pool chooses for it. Without tasks there are no workers.
  method RunMap<D, K(==, !new), V(!new)>(prog: Program<D, K, V>, blankKey: K, container: HashContainer<K, V>,
                                         data: seq<D>, tasks: nat, ghost keys: set<K>)
    returns (ghost width: nat)
    requires container.Valid() && container.inSize > 0 && KeysAmong(prog, data, keys)
    modifies container.vals, container`emitted
    ensures container.Valid() && width == Min(tasks, container.inSize)
    ensures container.emitted == old(container.emitted) + if tasks > 0 then Emits(prog, data) else multiset{}
  {
    hide TasksEmit, Emits, RowsOk, RowsPairs, KeysAmong, DataOf, Pool.Slot, Cut;
    width := Min(tasks, container.inSize);
    if tasks == 0 { return; }
    var made := MakeMapTasks(data, tasks);
    AllTasksEmit(prog, data, made, |made|);
    assert made[..|made|] == made;
    var workers := if tasks < container.inSize then tasks else container.inSize;
    var left := Below(|made|);
    var i := 0;
    NoTaskEmits(prog, data, made);
    while i < workers
      invariant i <= workers && container.Valid() && left <= Below(|made|) && (i == workers ==> left == {})
      invariant container.emitted + TasksEmit(prog, data, made, left) == old(container.emitted) + Emits(prog, data)
    {
      var mine: set<nat> := *;
      if !(mine <= left) || i + 1 == workers { mine := left; }
      SplitTasks(prog, data, made, mine, left);
      Pool.SlotExists(Pool.Setting(container.inSize, true, []), i, workers);
      var thread := Pool.Slot(Pool.Setting(container.inSize, true, []), i, workers);
      MapWorker(prog, blankKey, container, thread, data, made, mine, keys);
      left := left - mine;
      i := i + 1;
    }
  }

  // ------------------------------------------------------------------ the job

  lemma CutRecords<D, K, V>(prog: Program<D, K, V>, file: seq<Byte>, a: nat, b: nat, keys: set<K>)
    requires LineBased(prog) && a <= b <= |file| && (b < |file| ==> EndsLine(file[a..b]))
    requires KeysAmong(prog, prog.records(file[a..]), keys)
    ensures KeysAmong(prog, prog.records(file[a..b]), keys) && KeysAmong(prog, prog.records(file[b..]), keys)
    ensures Emits(prog, prog.records(file[a..])) ==
            Emits(prog, prog.records(file[a..b])) + Emits(prog, prog.records(file[b..]))
  {
    assert file[a..] == file[a..b] + file[b..];
    var x, y := prog.records(file[a..b]), prog.records(file[b..]);
    if b == |file| {
      assert file[b..] == [] && file[a..b] == file[a..] && x + y == x;
    }
    assert prog.records(file[a..]) == x + y;
    EmitsConcat(prog, x, y);
    RangeKeys(prog, x + y, keys, 0, |x|);
    RangeKeys(prog, x + y, keys, |x|, |x + y|);
    assert (x + y)[0..|x|] == x && (x + y)[|x|..|x + y|] == y;
  }

  // What is still to be mapped when everything before position a has been: nothing, if no tasks are made.
  ghost function StillToCome<D, K, V>(prog: Program<D, K, V>, file: seq<Byte>, a: nat, tasks: nat): multiset<(K, V)> {
    if a <= |file| && tasks > 0 then Emits(prog, prog.records(file[a..])) else multiset{}
  }

  lemma NothingToCome<D, K, V>(prog: Program<D, K, V>, file: seq<Byte>, tasks: nat)
    requires LineBased(prog)
    ensures StillToCome(prog, file, |file|, tasks) == multiset{}
  {
    assert file[|file|..] == [];
  }

  // One run_mappers on the chunk file[a..b].
  method RunMappers<D, K(==, !new), V(!new)>(prog: Program<D, K, V>, blankKey: K, container: HashContainer<K, V>,
                                             chunk: seq<Byte>, tasks: nat, ghost file: seq<Byte>, ghost a: nat,
                                             ghost b: nat, ghost keys: set<K>)
    returns (ghost width: nat)
    requires container.Valid() && container.inSize > 0 && LineBased(prog)
    requires a <= b <= |file| && chunk == file[a..b] && (b < |file| ==> EndsLine(chunk))
    requires KeysAmong(prog, prog.records(file[a..]), keys)
    modifies container.vals, container`emitted
    ensures container.Valid() && KeysAmong(prog, prog.records(file[b..]), keys) && width == Min(tasks, container.inSize)
    ensures container.emitted + StillToCome(prog, file, b, tasks) ==
            old(container.emitted) + StillToCome(prog, file, a, tasks)
  {
    CutRecords(prog, file, a, b, keys);
    hide Emits, RowsOk, RowsPairs, KeysAmong, LineBased;
    width := RunMap(prog, blankKey, container, prog.records(chunk), tasks, keys);
  }

  // The number of map tasks, which is taken from the first chunk.
  function MapTaskCount<D, K, V>(prog: Program<D, K, V>, file: seq<Byte>, ingestBytes: nat, threads: nat): nat
    requires ChunkEnd(file, ingestBytes, 0) <= |file|
  {
    Min(|prog.records(file[..ChunkEnd(file, ingestBytes, 0)])|, threads) * 16
  }

  // What is mapped in all: nothing, if the first chunk holds no record, and otherwise what the records of the file
  // emit.
  ghost function Mapped<D, K, V>(prog: Program<D, K, V>, file: seq<Byte>, ingestBytes: nat): multiset<(K, V)>
    requires ChunkEnd(file, ingestBytes, 0) <= |file|
  {
    if prog.records(file[..ChunkEnd(file, ingestBytes, 0)]) == [] then multiset{} else Emits(prog, prog.records(file))
  }

  // A first chunk without a record, such as one of headings, and the records behind it are lost.
  lemma EmptyStart<D, K, V>(prog: Program<D, K, V>, a: seq<Byte>, b: seq<Byte>, ingestBytes: nat)
    requires LineBased(prog) && EndsLine(a) && prog.records(a) == [] && ChunkEnd(a + b, ingestBytes, 0) == |a|
    ensures Mapped(prog, a + b, ingestBytes) == multiset{}
    ensures Emits(prog, prog.records(a + b)) == Emits(prog, prog.records(b))
  {
    assert (a + b)[..|a|] == a;
    assert prog.records(a + b) == [] + prog.records(b) == prog.records(b);
  }

  lemma MappedIsAll<D, K, V>(prog: Program<D, K, V>, file: seq<Byte>, ingestBytes: nat, threads: nat)
    requires ChunkEnd(file, ingestBytes, 0) <= |file| && threads > 0
    ensures var count := |prog.records(file[..ChunkEnd(file, ingestBytes, 0)])|;
            MapTaskCount(prog, file, ingestBytes, threads) == (if count < threads then count else threads) * 16
    ensures StillToCome(prog, file, 0, MapTaskCount(prog, file, ingestBytes, threads)) ==
            Mapped(prog, file, ingestBytes)
  {
    assert file[0..] == file;
  }

  lemma ReadableStep(file: seq<Byte>, ingestBytes: nat, nread: nat)
    requires nread <= |file|
    ensures Readable(file, ingestBytes, nread) <==>
              nread == |file| || (ChunkEnd(file, ingestBytes, nread) <= |file| &&
                                  Readable(file, ingestBytes, ChunkEnd(file, ingestBytes, nread)))
    ensures ChunkEnd(file, ingestBytes, nread) < |file| ==> EndsLine(file[nread..ChunkEnd(file, ingestBytes, nread)])
    ensures ingestBytes == 0 || nread == |file| ==> ChunkEnd(file, ingestBytes, nread) == |file|
    ensures nread < |file| ==> nread < ChunkEnd(file, ingestBytes, nread)
  {
    if ChunkEnd(file, ingestBytes, nread) < |file| { ChunkEndsLine(file, ingestBytes, nread); }
  }

  // run_ingest_chunks up to the reduce phase: each chunk is mapped while the next one is read. It fails exactly if a
  // chunk cannot be read. The number of map tasks is taken from the first chunk.
  method RunIngestChunks<D, K(==, !new), V(!new)>(prog: Program<D, K, V>, blankKey: K, container: HashContainer<K, V>,
                                                  file: seq<Byte>, ingestBytes: nat, ghost keys: set<K>)
    returns (ok: bool, ghost widths: seq<nat>)
    requires container.Valid() && container.inSize > 0 && container.emitted == multiset{}
    requires LineBased(prog) && KeysAmong(prog, prog.records(file), keys)
    modifies container.vals, container`emitted
    ensures ok <==> Readable(file, ingestBytes, 0)
    ensures ok ==> ChunkEnd(file, ingestBytes, 0) <= |file| && widths != [] && container.Valid()
    ensures ok ==> container.emitted == Mapped(prog, file, ingestBytes)
    ensures ok ==> var width := Min(MapTaskCount(prog, file, ingestBytes, container.inSize), container.inSize);
                   widths == Repeated(width, |widths|)
  {
    hide Emits, RowsOk, RowsPairs, KeysAmong, LineBased, ChunkEnd, StillToCome, EndsLine, Readable, Mapped;
    hide MapTaskCount;
    hide Repeated;
    assert file[0..] == file;
    ReadableStep(file, ingestBytes, 0);
    widths := [];
    var chunk, nread;
    ok, chunk, nread := ReadNext(file, ingestBytes, 0);
    if !ok { return; }
    assert chunk == file[..nread] == file[0..nread];
    var count := |prog.records(chunk)|;
    var tasks := (if count < container.inSize then count else container.inSize) * 16;
    MappedIsAll(prog, file, ingestBytes, container.inSize);
    NothingToCome(prog, file, tasks);
    ghost var all := StillToCome(prog, file, 0, tasks);
    ghost var workers, start, width := Min(tasks, container.inSize), 0, 0;
    NoneRepeated(workers);
    while nread < |file|
      invariant 0 <= start <= nread <= |file| && (ingestBytes == 0 ==> nread == |file|)
      invariant chunk == file[start..nread] && (nread < |file| ==> EndsLine(chunk)) && container.Valid()
      invariant KeysAmong(prog, prog.records(file[start..]), keys)
      invariant container.emitted + StillToCome(prog, file, start, tasks) == all
      invariant Readable(file, ingestBytes, 0) <==> Readable(file, ingestBytes, nread)
      invariant widths == Repeated(workers, |widths|)
      decreases |file| - nread
    {
      ReadableStep(file, ingestBytes, nread);
      var next, nread';
      ok, next, nread' := ReadNext(file, ingestBytes, nread);
      if !ok { return; }
      width := RunMappers(prog, blankKey, container, chunk, tasks, file, start, nread, keys);
      OneMoreRepeated(workers, |widths|);
      widths := widths + [width];
      start := nread;
      chunk, nread := next, nread';
    }
    ReadableStep(file, ingestBytes, |file|);
    width := RunMappers(prog, blankKey, container, chunk, tasks, file, start, nread, keys);
    OneMoreRepeated(workers, |widths|);
    widths := widths + [width];
    ok := true;
  }

  lemma NoneRepeated(width: nat)
    ensures Repeated(width, 0) == []
  {
  }

  lemma OneMoreRepeated(width: nat, n: nat)
    ensures Repeated(width, n + 1) == Repeated(width, n) + [width]
  {
  }

  function Repeated(width: nat, n: nat): (widths: seq<nat>)
    ensures |widths| == n && forall i :: 0 <= i < n ==> widths[i] == width
  {
    seq(n, _ => width)
  }

  // run_reduce: one reduce task per partition.
  method RunReduce<K(==, !new), V(!new)>(container: HashContainer<K, V>) returns (parts: seq<map<K, seq<seq<V>>>>)
    requires container.Valid()
    ensures |parts| == container.outSize
    ensures forall p: nat {:trigger parts[p]} :: p < |parts| ==>
              && Joined(parts[p], RowsPairs(RowsOf(container.vals[..], container.inSize, p)))
              && KeysIn(container.kh, container.outSize, parts[p], p)
  {
    hide Joined, KeysIn, RowsOk, RowsPairs, RowsOf;
    parts := [];
    while |parts| < container.outSize
      invariant |parts| <= container.outSize
      invariant forall p: nat {:trigger parts[p]} :: p < |parts| ==>
                  && Joined(parts[p], RowsPairs(RowsOf(container.vals[..], container.inSize, p)))
                  && KeysIn(container.kh, container.outSize, parts[p], p)
    {
      var combined := Begin(container, |parts|);
      parts := parts + [combined];
    }
  }

  // The values that a partition serves for a key.
  ghost predicate Serves<K(!new), V(!new)>(part: map<K, seq<seq<V>>>, em: multiset<(K, V)>, k: K) {
    && (forall v :: multiset(ValuesFor(part, k))[v] == em[(k, v)])
    && (k in part ==> NoEmptyList(part[k]) && Combiner.Served(part[k], 0, 0) == ValuesFor(part, k) != [])
  }

  // A job up to the user's reduce: it fails exactly if a chunk cannot be read. Otherwise, whatever the ingest
  // threshold, the cutting into map tasks, the sharing out among threads and their order, every key is served by its
  // own partition alone, with exactly the values emitted for it in the whole file, unless the first chunk holds no
  // record, when nothing is served at all. The rounds never shrink, so that the pool is a barrier for them
  // (`Rounds.BarrierFor`).
  method Job<D, K(==, !new), V(!new)>(prog: Program<D, K, V>, kh: K -> nat, blankKey: K, threads: nat, file: seq<Byte>,
                                      ingestBytes: nat, ghost keys: set<K>)
    returns (ok: bool, parts: seq<map<K, seq<seq<V>>>>, ghost widths: seq<nat>)
    requires threads > 0 && LineBased(prog) && KeysAmong(prog, prog.records(file), keys)
    ensures ok <==> Readable(file, ingestBytes, 0)
    ensures ok ==> |parts| == threads && ChunkEnd(file, ingestBytes, 0) <= |file|
    ensures ok ==> forall k :: Serves(parts[PartOf(kh, threads, k)], Mapped(prog, file, ingestBytes), k)
    ensures ok ==>
              forall p, k {:trigger k in parts[p]} ::
                0 <= p < |parts| ==>
                  (k in parts[p] <==> p == kh(k) % threads && exists v :: (k, v) in Mapped(prog, file, ingestBytes))
    ensures ok ==> widths != [] && widths[|widths| - 1] == threads && forall w :: w in widths ==> w <= threads
    ensures ok ==> Rounds.Rising(0, widths)
  {
    hide KeysAmong, LineBased, EndsLine, ChunkEnd, Emits, Joined, RowsOk, RowsPairs, RowsOf, Serves, Rounds.Rising;
    hide Mapped;
    var container := new HashContainer<K, V>(kh, threads, threads);
    parts := [];
    ok, widths := RunIngestChunks(prog, blankKey, container, file, ingestBytes, keys);
    if !ok { return; }
    widths := widths + [threads];
    Rounds.MonotoneRises(0, widths);
    parts := RunReduce(container);
    AllServed(kh, threads, container.vals[..], parts);
    AllPlaced(kh, threads, parts, Mapped(prog, file, ingestBytes));
  }

  // A partition serves exactly the emitted keys whose hash leaves its number as the remainder.
  lemma AllPlaced<K(!new), V(!new)>(kh: K -> nat, threads: nat, parts: seq<map<K, seq<seq<V>>>>, em: multiset<(K, V)>)
    requires threads > 0 && |parts| == threads && forall k :: Serves(parts[PartOf(kh, threads, k)], em, k)
    requires forall p, k {:trigger k in parts[p]} :: 0 <= p < |parts| && k in parts[p] ==> p == PartOf(kh, threads, k)
    ensures forall p, k {:trigger k in parts[p]} :: 0 <= p < |parts| ==>
              (k in parts[p] <==> p == kh(k) % threads && exists v :: (k, v) in em)
  {
    forall p, k {:trigger k in parts[p]} | 0 <= p < |parts|
      ensures k in parts[p] <==> p == kh(k) % threads && exists v :: (k, v) in em
    {
      assert PartOf(kh, threads, k) == kh(k) % threads;
      assert Serves(parts[PartOf(kh, threads, k)], em, k);
      hide PartOf;
      if p == kh(k) % threads { Emitted(parts[p], em, k); }
    }
  }

  lemma Emitted<K(!new), V(!new)>(part: map<K, seq<seq<V>>>, em: multiset<(K, V)>, k: K)
    requires Serves(part, em, k)
    ensures k in part <==> exists v :: (k, v) in em
  {
    hide Combiner.Served, Flatten;
    if k in part {
      var v := ValuesFor(part, k)[0];
      assert v in multiset(ValuesFor(part, k));
      assert (k, v) in em;
    }
  }

  lemma AllServed<K(!new), V(!new)>(kh: K -> nat, threads: nat, rows: seq<seq<(K, seq<V>)>>,
                                    parts: seq<map<K, seq<seq<V>>>>)
    requires threads > 0 && RowsOk(kh, threads, threads, rows) && |parts| == threads
    requires forall p: nat {:trigger parts[p]} :: p < |parts| ==> Joined(parts[p], RowsPairs(RowsOf(rows, threads, p)))
    ensures forall k :: Serves(parts[PartOf(kh, threads, k)], RowsPairs(rows), k)
  {
    forall k
      ensures Serves(parts[PartOf(kh, threads, k)], RowsPairs(rows), k)
    {
      hide Joined, RowsOk, RowsPairs, RowsOf, Serves;
      ServedHere(kh, threads, rows, parts[PartOf(kh, threads, k)], k);
    }
  }

  lemma ServedHere<K(!new), V(!new)>(kh: K -> nat, threads: nat, rows: seq<seq<(K, seq<V>)>>,
                                     part: map<K, seq<seq<V>>>, k: K)
    requires threads > 0 && RowsOk(kh, threads, threads, rows)
    requires Joined(part, RowsPairs(RowsOf(rows, threads, PartOf(kh, threads, k))))
    ensures Serves(part, RowsPairs(rows), k)
  {
    assert k in part ==> NoEmptyList(part[k]);
    hide Joined, NoEmptyList, RowsOk, RowsPairs, RowsOf;
    PartitionValues(kh, threads, threads, rows, part, k);
  }

  // With associative combiners instead of lists: what each list folds to, folded together, is the fold over the values
  // emitted for the key, in any order.
  lemma FoldServed<K(!new), V(!new)>(part: map<K, seq<seq<V>>>, em: multiset<(K, V)>, k: K,
                                     f: (V, V) -> V, init: V, vs: seq<V>)
    requires Combiner.Associates(f, init) && Combiner.Commutes(f) && Serves(part, em, k)
    requires forall v :: multiset(vs)[v] == em[(k, v)]
    ensures k in part <==> vs != []
    ensures k in part ==> Combiner.Fold(f, init, Combiner.Folds(f, init, part[k])) == Combiner.Fold(f, init, vs)
  {
    hide Combiner.Associates, Combiner.Commutes, Combiner.Fold, Combiner.Served, Flatten;
    SameValues(vs, ValuesFor(part, k));
    if k in part {
      Combiner.FoldOfFolds(f, init, part[k]);
      Combiner.FoldOrder(f, init, Flatten(part[k]), vs);
    }
  }

  lemma SameValues<V(!new)>(a: seq<V>, b: seq<V>)
    requires forall v :: multiset(a)[v] == multiset(b)[v]
    ensures multiset(a) == multiset(b) && |a| == |b|
  {
    assert |multiset(a)| == |a| && |multiset(b)| == |b|;
  }
}
