/** Cutting a file into chunks of whole lines (read_chunk.h:139-211, and the loop of run_ingest_chunks,
    map_reduce.h:374-451), or reading it as a whole (read_chunk.h:229-319). */
module IngestChunks {
  import opened Collections

  type Byte = nat
  const NEWLINE: Byte := 10

  // The position behind the first newline at or after p; behind the end of the file plus one if there is none.
  function BehindNewline(file: seq<Byte>, p: nat): (q: nat)
    requires p <= |file|
    ensures p < q <= |file| + 1
    decreases |file| - p
  {
    if p == |file| then p + 1 else if file[p] == NEWLINE then p + 1 else BehindNewline(file, p + 1)
  }

  lemma {:induction false} BehindNewlineIsFirst(file: seq<Byte>, p: nat)
    requires p <= |file|
    ensures var q := BehindNewline(file, p);
            && (q <= |file| ==> file[q - 1] == NEWLINE) && (q > |file| ==> q == |file| + 1)
            && (forall i :: p <= i < q - 1 ==> file[i] != NEWLINE)
    decreases |file| - p
  {
    if p < |file| && file[p] != NEWLINE { BehindNewlineIsFirst(file, p + 1); }
  }

  // Where the chunk that starts at nread ends, or |file| + 1 if there is no newline to end it. Without a threshold the
  // chunk is the file.
  function ChunkEnd(file: seq<Byte>, ingestBytes: nat, nread: nat): (q: nat)
    requires nread <= |file|
    ensures nread <= q <= |file| + 1 && (nread < |file| ==> nread < q)
  {
    if ingestBytes == 0 || ingestBytes + nread >= |file| then |file| else BehindNewline(file, ingestBytes + nread)
  }

  lemma BehindStep(file: seq<Byte>, p: nat)
    requires p <= |file|
    ensures p == |file| ==> BehindNewline(file, p) == |file| + 1
    ensures p < |file| ==> BehindNewline(file, p) == if file[p] == NEWLINE then p + 1 else BehindNewline(file, p + 1)
  {
  }

  // The search for the split point. The source gives up (not ok) when it meets the end of the file.
  method FindSplit(file: seq<Byte>, start: nat) returns (ok: bool, split: nat)
    requires start < |file|
    ensures ok <==> BehindNewline(file, start) <= |file|
    ensures ok ==> split == BehindNewline(file, start)
  {
    hide BehindNewline;
    var c := 97;
    split := start;
    while c != NEWLINE
      invariant start <= split <= |file|
      invariant BehindNewline(file, start) == if c == NEWLINE then split else BehindNewline(file, split)
      decreases |file| - split, if c == NEWLINE then 0 else 1
    {
      BehindStep(file, split);
      if split == |file| { return false, split; }
      c := file[split];
      split := split + 1;
    }
    ok := true;
  }

  // The loop over pread.
  method ReadRange(file: seq<Byte>, nread: nat, size: nat) returns (data: seq<Byte>)
    requires nread + size <= |file|
    ensures data == file[nread..nread + size]
  {
    data := [];
    var r := 0;
    while r < size
      invariant r <= size && data == file[nread..nread + r]
    {
      data := data + [file[nread + r]];
      r := r + 1;
    }
  }

  // read_chunk_bytes for the only file of a job: the chunk that starts at nread.
  method ReadChunkBytes(file: seq<Byte>, ingestBytes: nat, nread: nat) returns (ok: bool, data: seq<Byte>, nread': nat)
    requires nread <= |file| && ingestBytes > 0
    ensures ok <==> ChunkEnd(file, ingestBytes, nread) <= |file|
    ensures ok ==> nread' == ChunkEnd(file, ingestBytes, nread) && data == file[nread..nread']
    ensures !ok <==>
              nread + ingestBytes < |file| && forall i :: nread + ingestBytes <= i < |file| ==> file[i] != NEWLINE
    ensures ok && nread + ingestBytes < |file| ==>
              && nread + ingestBytes < nread' <= |file| && file[nread' - 1] == NEWLINE
              && forall i :: nread + ingestBytes <= i < nread' - 1 ==> file[i] != NEWLINE
    ensures ok && nread + ingestBytes >= |file| ==> nread' == |file|
  {
    if ingestBytes + nread < |file| { BehindNewlineIsFirst(file, ingestBytes + nread); }
    var split := ingestBytes + nread;
    data, nread' := [], nread;
    if split >= |file| {
      split := |file| + 1;
    } else {
      ok, split := FindSplit(file, split);
      if !ok { return; }
      split := split + 1;
    }
    var size := split - nread - 1;
    data := ReadRange(file, nread, size);
    nread' := nread + size;
    ok := true;
  }

  // The next chunk: read_chunk_bytes, or read_chunk for the only file of a job.
  method ReadNext(file: seq<Byte>, ingestBytes: nat, nread: nat) returns (ok: bool, data: seq<Byte>, nread': nat)
    requires nread <= |file| && (ingestBytes == 0 ==> nread == 0)
    ensures ok <==> ChunkEnd(file, ingestBytes, nread) <= |file|
    ensures ok ==> nread' == ChunkEnd(file, ingestBytes, nread) && data == file[nread..nread']
    ensures ingestBytes == 0 ==> ok && nread' == |file|
    ensures ok && nread' < |file| ==>
              && nread + ingestBytes < nread' && file[nread' - 1] == NEWLINE
              && forall i :: nread + ingestBytes <= i < nread' - 1 ==> file[i] != NEWLINE
  {
    if ingestBytes > 0 {
      ok, data, nread' := ReadChunkBytes(file, ingestBytes, nread);
    } else {
      data := ReadRange(file, 0, |file|);
      ok, nread' := true, |file|;
    }
  }

  // ------------------------------------------------------------------ all chunks

  // The chunks from nread on, as far as they can be read.
  function Chunks(file: seq<Byte>, ingestBytes: nat, nread: nat): seq<seq<Byte>>
    requires nread <= |file|
    decreases |file| - nread
  {
    var end := ChunkEnd(file, ingestBytes, nread);
    if nread == |file| || end > |file| then [] else [file[nread..end]] + Chunks(file, ingestBytes, end)
  }

  predicate EndsLine(data: seq<Byte>) {
    data != [] && data[|data| - 1] == NEWLINE
  }

  // No search for the end of a chunk, from nread on, runs into the end of the file.
  predicate Readable(file: seq<Byte>, ingestBytes: nat, nread: nat)
    requires nread <= |file|
    decreases |file| - nread
  {
    nread == |file| ||
    (ChunkEnd(file, ingestBytes, nread) <= |file| && Readable(file, ingestBytes, ChunkEnd(file, ingestBytes, nread)))
  }

  // A chunk that can be read and is not the last one ends just behind a newline and is longer than the threshold.
  lemma ChunkEndsLine(file: seq<Byte>, ingestBytes: nat, nread: nat)
    requires nread <= |file| && ChunkEnd(file, ingestBytes, nread) < |file|
    ensures EndsLine(file[nread..ChunkEnd(file, ingestBytes, nread)])
    ensures ChunkEnd(file, ingestBytes, nread) > nread + ingestBytes
  {
    BehindNewlineIsFirst(file, ingestBytes + nread);
  }

  // A file that ends with a newline can be read, and so can any file without a threshold, or with one that the file
  // does not exceed.
  lemma {:induction false} AlwaysReadable(file: seq<Byte>, ingestBytes: nat, nread: nat)
    requires nread <= |file| && (EndsLine(file) || ingestBytes == 0 || nread + ingestBytes >= |file|)
    ensures Readable(file, ingestBytes, nread)
    decreases |file| - nread
  {
    if nread < |file| && nread + ingestBytes < |file| && ingestBytes > 0 {
      BehindNewlineIsFirst(file, ingestBytes + nread);
      assert file[|file| - 1] == NEWLINE;
      AlwaysReadable(file, ingestBytes, ChunkEnd(file, ingestBytes, nread));
    }
  }

  // A concrete case: two lines without a final newline, cut into lines, cannot be read, and with a longer threshold
  // they can.
  lemma UnreadableWithoutNewline()
    ensures !Readable([97, 10, 98, 99], 1, 0) && Readable([97, 10, 98, 99], 4, 0)
  {
    var file := [97, 10, 98, 99];
    assert BehindNewline(file, 1) == 2;
    assert BehindNewline(file, 3) == 5 && BehindNewline(file, 4) == 5;
    assert ChunkEnd(file, 1, 0) == 2 && ChunkEnd(file, 1, 2) == 5;
    assert ChunkEnd(file, 4, 0) == 4;
  }

  lemma {:induction false} ChunksConcat(file: seq<Byte>, ingestBytes: nat, nread: nat)
    requires nread <= |file| && Readable(file, ingestBytes, nread)
    ensures Flatten(Chunks(file, ingestBytes, nread)) == file[nread..]
    decreases |file| - nread
  {
    hide ChunkEnd;
    if nread < |file| {
      var end := ChunkEnd(file, ingestBytes, nread);
      ChunksConcat(file, ingestBytes, end);
      assert file[nread..end] + file[end..] == file[nread..];
    }
  }

  lemma {:induction false} ChunkAt(file: seq<Byte>, ingestBytes: nat, nread: nat, i: nat)
    requires nread <= |file| && i + 1 < |Chunks(file, ingestBytes, nread)|
    ensures EndsLine(Chunks(file, ingestBytes, nread)[i]) && |Chunks(file, ingestBytes, nread)[i]| > ingestBytes
    decreases i
  {
    hide ChunkEnd, EndsLine;
    var end := ChunkEnd(file, ingestBytes, nread);
    if i > 0 {
      ChunkAt(file, ingestBytes, end, i - 1);
    } else {
      ChunkEndsLine(file, ingestBytes, nread);
    }
  }

  // The chunks of a file that can be read tile it, and each but the last ends just behind a newline and is longer than
  // the ingest threshold.
  lemma ChunksTile(file: seq<Byte>, ingestBytes: nat)
    requires Readable(file, ingestBytes, 0)
    ensures Flatten(Chunks(file, ingestBytes, 0)) == file
    ensures forall i :: 0 <= i < |Chunks(file, ingestBytes, 0)| - 1 ==> EndsLine(Chunks(file, ingestBytes, 0)[i])
    ensures forall i :: 0 <= i < |Chunks(file, ingestBytes, 0)| - 1 ==> |Chunks(file, ingestBytes, 0)[i]| > ingestBytes
  {
    hide Chunks, EndsLine;
    ChunksConcat(file, ingestBytes, 0);
    assert file[0..] == file;
    forall i: nat | i + 1 < |Chunks(file, ingestBytes, 0)|
      ensures EndsLine(Chunks(file, ingestBytes, 0)[i]) && |Chunks(file, ingestBytes, 0)[i]| > ingestBytes
    {
      ChunkAt(file, ingestBytes, 0, i);
    }
  }

  // ------------------------------------------------------------------ map tasks

  // Units per task: max(1, ceil(count / tasks)).
  function TaskSize(count: nat, tasks: nat): (size: nat)
    requires tasks > 0
  {
    var up := (count + tasks - 1) / tasks;
    if up > 1 then up else 1
  }

  function Times(size: nat, i: nat): nat {
    size * i
  }

  lemma TimesNext(size: nat, i: nat)
    ensures Times(size, i + 1) == Times(size, i) + size && Times(size, 0) == 0
  {
  }

  function Min(x: nat, y: nat): nat {
    if x < y then x else y
  }

  // The tasks from number i on, as ranges of a start and a length.
  function TasksFrom(count: nat, size: nat, tasks: nat, i: nat): seq<(nat, nat)>
    requires i <= tasks
    decreases tasks - i
  {
    if i == tasks then [] else TaskAt(count, size, i) + TasksFrom(count, size, tasks, i + 1)
  }

  // Task number i, unless its start lies behind the data.
  function TaskAt(count: nat, size: nat, i: nat): seq<(nat, nat)> {
    if Times(size, i) < count then [(Times(size, i), Min(size, count - Times(size, i)))] else []
  }

  // The data of the tasks, one task after the other.
  function DataOf<T>(data: seq<T>, tasks: seq<(nat, nat)>): seq<T> {
    if tasks == [] then []
    else
      (if tasks[0].0 + tasks[0].1 <= |data| then data[tasks[0].0..tasks[0].0 + tasks[0].1] else [])
      + DataOf(data, tasks[1..])
  }

  lemma EnoughTasks(count: nat, tasks: nat)
    requires tasks > 0
    ensures Times(TaskSize(count, tasks), tasks) >= count
  {
    var up := (count + tasks - 1) / tasks;
    assert up * tasks > count - 1;
    if up > 1 { } else { assert 1 * tasks >= up * tasks; }
  }

  lemma TaskData<T>(data: seq<T>, size: nat, i: nat, rest: seq<(nat, nat)>)
    requires DataOf(data, rest) == data[Min(Times(size, i + 1), |data|)..]
    ensures DataOf(data, TaskAt(|data|, size, i) + rest) == data[Min(Times(size, i), |data|)..]
  {
    TimesNext(size, i);
    hide Times;
    var start := Times(size, i);
    if start < |data| {
      var len := Min(size, |data| - start);
      assert ([(start, len)] + rest)[1..] == rest;
      assert data[start..start + len] + data[start + len..] == data[start..];
    } else {
      assert [] + rest == rest;
    }
  }

  // The tasks from number i on cover the data from their start on, in order and without overlap.
  lemma {:induction false} TasksCover<T>(data: seq<T>, size: nat, tasks: nat, i: nat)
    requires i <= tasks && Times(size, tasks) >= |data|
    ensures DataOf(data, TasksFrom(|data|, size, tasks, i)) == data[Min(Times(size, i), |data|)..]
    decreases tasks - i
  {
    hide Times, TaskAt, DataOf;
    if i == tasks {
      NoTasks(data);
    } else {
      TasksCover(data, size, tasks, i + 1);
      TaskData(data, size, i, TasksFrom(|data|, size, tasks, i + 1));
    }
  }

  lemma NoTasks<T>(data: seq<T>)
    ensures DataOf(data, []) == []
  {
  }

  lemma {:induction false} TaskRanges(count: nat, size: nat, tasks: nat, i: nat)
    requires i <= tasks
    ensures forall t :: t in TasksFrom(count, size, tasks, i) ==> t.0 + t.1 <= count
    decreases tasks - i
  {
    hide Times;
    if i < tasks { TaskRanges(count, size, tasks, i + 1); }
  }

  // Task number n begins n sizes behind the start and has that size, as far as the data goes.
  predicate IsTask(count: nat, size: nat, n: nat, task: (nat, nat)) {
    Times(size, n) < count && task == (Times(size, n), Min(size, count - Times(size, n)))
  }

  // The tasks from number i on, of at most `tasks` in all, which leave nothing over that another one could take.
  predicate Cut(count: nat, size: nat, tasks: nat, i: nat, made: seq<(nat, nat)>) {
    && i + |made| <= tasks && (i + |made| == tasks || Times(size, i + |made|) >= count)
    && forall j: nat {:trigger made[j]} :: j < |made| ==> IsTask(count, size, i + j, made[j])
  }

  lemma {:induction false} TasksAre(count: nat, size: nat, tasks: nat, i: nat)
    requires i <= tasks
    ensures Cut(count, size, tasks, i, TasksFrom(count, size, tasks, i))
    decreases tasks - i
  {
    if i < tasks {
      TasksAre(count, size, tasks, i + 1);
      if Times(size, i) >= count {
        NoTasksBehind(count, size, tasks, i);
      } else {
        var made, rest := TasksFrom(count, size, tasks, i), TasksFrom(count, size, tasks, i + 1);
        assert IsTask(count, size, i, made[0]) && made == [made[0]] + rest;
        hide Times, IsTask, TasksFrom;
        forall j: nat {:trigger made[j]} | j < |made|
          ensures IsTask(count, size, i + j, made[j])
        {
          if j > 0 { assert IsTask(count, size, i + 1 + (j - 1), rest[j - 1]); }
        }
      }
    }
  }

  lemma {:induction false} NoTasksBehind(count: nat, size: nat, tasks: nat, i: nat)
    requires i <= tasks && Times(size, i) >= count
    ensures TasksFrom(count, size, tasks, i) == []
    decreases tasks - i
  {
    if i < tasks {
      TimesNext(size, i);
      NoTasksBehind(count, size, tasks, i + 1);
    }
  }

  // The size of a task is the least one with which the tasks asked for hold all the data.
  lemma TaskSizeLeast(count: nat, tasks: nat)
    requires tasks > 0
    ensures TaskSize(count, tasks) > 0 && count <= Times(TaskSize(count, tasks), tasks)
    ensures forall size: nat :: 0 < size < TaskSize(count, tasks) ==> Times(size, tasks) < count
  {
    EnoughTasks(count, tasks);
    forall size: nat | 0 < size < TaskSize(count, tasks)
      ensures Times(size, tasks) < count
    {
      Smaller(count, tasks, size);
    }
  }

  lemma Smaller(count: nat, tasks: nat, size: nat)
    requires tasks > 0 && size < (count + tasks - 1) / tasks
    ensures Times(size, tasks) < count
  {
    var x, up := count + tasks - 1, (count + tasks - 1) / tasks;
    assert x == tasks * up + x % tasks;
    TimesLe(tasks, size + 1, up);
    TimesNext(tasks, size);
    assert size * tasks == tasks * size;
  }

  lemma TimesLe(size: nat, a: nat, b: nat)
    requires a <= b
    ensures Times(size, a) <= Times(size, b)
  {
  }

  // The loop of run_map that creates the tasks (map_reduce.h:459-481): together they are the data, in order, and each
  // but the last has the size of TaskSizeLeast.
  method MakeMapTasks<T>(data: seq<T>, tasks: nat) returns (made: seq<(nat, nat)>)
    requires tasks > 0
    ensures forall t :: t in made ==> t.0 + t.1 <= |data|
    ensures DataOf(data, made) == data
    ensures Cut(|data|, TaskSize(|data|, tasks), tasks, 0, made)
  {
    hide TaskSize, Times, DataOf, TaskAt, Cut;
    var chunkSize := TaskSize(|data|, tasks);
    TasksAre(|data|, chunkSize, tasks, 0);
    EnoughTasks(|data|, tasks);
    TasksCover(data, chunkSize, tasks, 0);
    TaskRanges(|data|, chunkSize, tasks, 0);
    TimesNext(chunkSize, 0);
    made := [];
    var i := 0;
    while i < tasks
      invariant i <= tasks && made + TasksFrom(|data|, chunkSize, tasks, i) == TasksFrom(|data|, chunkSize, tasks, 0)
    {
      made := EnqueueTask(|data|, chunkSize, i, made);
      i := i + 1;
    }
    assert made + [] == made && data[0..] == data;
  }

  method EnqueueTask(count: nat, chunkSize: nat, i: nat, made: seq<(nat, nat)>) returns (made': seq<(nat, nat)>)
    ensures made' == made + TaskAt(count, chunkSize, i)
  {
    made' := made;
    var start := Times(chunkSize, i);
    hide Times;
    if start < count {
      var len := if chunkSize < count - start then chunkSize else count - start;
      made' := made + [(start, len)];
    }
  }
}
