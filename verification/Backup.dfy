/** The backup agent: the search for the completion mark in a streamed dump, and the pruning of
    old backups. */
module Backup {
  import opened Text

  // ----- the streaming search -----

  type byte = bv8

  /** The read buffer. */
  const BUFFER: nat := 65536

  datatype Ending = EndOfStream | ReadFailure

  datatype SearchResult = Found | Absent | Failed

  /** The concatenation of the chunks a stream was read in. */
  function Whole(chunks: seq<seq<byte>>): seq<byte> {
    if chunks == [] then [] else Whole(chunks[..|chunks| - 1]) + chunks[|chunks| - 1]
  }

  lemma {:induction false} WholePrefix(chunks: seq<seq<byte>>, i: nat)
    requires i <= |chunks|
    ensures Whole(chunks[..i]) <= Whole(chunks)
  {
    if i == |chunks| {
      assert chunks[..i] == chunks;
    } else {
      WholePrefix(chunks[..|chunks| - 1], i);
      assert chunks[..|chunks| - 1][..i] == chunks[..i];
    }
  }

  lemma WholeStep(chunks: seq<seq<byte>>, i: nat)
    requires i < |chunks|
    ensures Whole(chunks[..i + 1]) == Whole(chunks[..i]) + chunks[i]
  {
    assert chunks[..i + 1][..i] == chunks[..i];
  }

  lemma ContainsInLonger(a: seq<byte>, b: seq<byte>, needle: seq<byte>)
    requires a <= b && Contains(a, needle)
    ensures Contains(b, needle)
  {
    var i :| 0 <= i <= |a| - |needle| && OccursAt(a, needle, i);
    assert OccursAt(b, needle, i);
  }

  lemma ContainsInSuffix(a: seq<byte>, k: nat, needle: seq<byte>)
    requires k <= |a| && Contains(a[k..], needle)
    ensures Contains(a, needle)
  {
    var i :| 0 <= i <= |a| - k - |needle| && OccursAt(a[k..], needle, i);
    assert a[k..][i..i + |needle|] == a[k + i..k + i + |needle|];
    assert OccursAt(a, needle, k + i);
  }

  /** A tail one shorter than the needle is enough to find what a chunk boundary cuts. */
  lemma TailIsEnough(seen: seq<byte>, chunk: seq<byte>, needle: seq<byte>, tail: nat)
    requires tail <= |seen| && (tail == |seen| || tail >= |needle| - 1)
    requires needle != [] && !Contains(seen, needle)
    ensures Contains(seen + chunk, needle) <==> Contains(seen[|seen| - tail..] + chunk, needle)
  {
    var all, near := seen + chunk, seen[|seen| - tail..] + chunk;
    assert near == all[|seen| - tail..];
    if Contains(near, needle) { ContainsInSuffix(all, |seen| - tail, needle); }
    if Contains(all, needle) {
      var i :| 0 <= i <= |all| - |needle| && OccursAt(all, needle, i);
      if i + |needle| <= |seen| {
        assert seen[i..i + |needle|] == all[i..i + |needle|];
        assert OccursAt(seen, needle, i);
      }
      var k := i - (|seen| - tail);
      assert k >= 0;
      assert near[k..k + |needle|] == all[i..i + |needle|];
      assert OccursAt(near, needle, k);
    }
  }

  lemma ContainsNothing(hay: seq<byte>)
    ensures Contains(hay, [])
  {
    assert OccursAt(hay, [], 0);
  }

  /** A tail of what was seen, the whole of it or long enough to bridge a chunk boundary. */
  predicate IsTail(tail: seq<byte>, seen: seq<byte>, needle: seq<byte>) {
    |tail| <= |seen| && tail == seen[|seen| - |tail|..] && (|tail| == |seen| || |tail| >= |needle| - 1)
  }

  /** The carry holds a tail of what was seen. */
  ghost predicate Carries(carry: array<byte>, carried: nat, seen: seq<byte>, needle: seq<byte>)
    reads carry
  {
    carried <= carry.Length && IsTail(carry[..carried], seen, needle)
  }

  lemma NothingSeen(tail: seq<byte>, chunks: seq<seq<byte>>, needle: seq<byte>)
    requires tail == []
    ensures Whole(chunks[..0]) == [] && IsTail(tail, [], needle) && (needle != [] ==> !Contains([], needle))
  {
    assert chunks[..0] == [];
  }

  lemma TailSuffices(tail: seq<byte>, seen: seq<byte>, chunk: seq<byte>, needle: seq<byte>)
    requires IsTail(tail, seen, needle) && (needle != [] ==> !Contains(seen, needle))
    ensures Contains(tail + chunk, needle) <==> needle == [] || Contains(seen + chunk, needle)
  {
    if needle == [] { ContainsNothing(tail + chunk); } else { TailIsEnough(seen, chunk, needle, |tail|); }
  }

  lemma TailMoves(tail: seq<byte>, seen: seq<byte>, chunk: seq<byte>, needle: seq<byte>, kept: nat)
    requires IsTail(tail, seen, needle)
    requires kept == if |needle| > 1 && |tail| + |chunk| > |needle| - 1 then |needle| - 1 else |tail| + |chunk|
    ensures kept <= |tail| + |chunk| && IsTail((tail + chunk)[|tail| + |chunk| - kept..], seen + chunk, needle)
  {
    assert tail + chunk == (seen + chunk)[|seen| - |tail|..];
  }

  lemma FoundInWhole(chunks: seq<seq<byte>>, i: nat, needle: seq<byte>)
    requires i < |chunks| && chunks[i] != [] && (needle == [] || Contains(Whole(chunks[..i + 1]), needle))
    ensures if needle == [] then Whole(chunks) != [] else Contains(Whole(chunks), needle)
  {
    WholePrefix(chunks, i + 1);
    assert chunks[..i + 1][i] == chunks[i];
    if needle != [] { ContainsInLonger(Whole(chunks[..i + 1]), Whole(chunks), needle); }
  }

  /** Go's append of src[from..to] to a[..len]: in place when the array has room, with memmove's
      meaning when the two overlap, else in a new array of any sufficient capacity. */
  method Append(a: array<byte>, len: nat, src: array<byte>, from: nat, to: nat) returns (r: array<byte>, n: nat)
    requires len <= a.Length && from <= to <= src.Length
    modifies a
    ensures n == len + (to - from) && n <= r.Length
    ensures r[..n] == old(a[..len]) + old(src[from..to])
    ensures r == a || fresh(r)
    ensures r != a ==> a[..] == old(a[..])
  {
    n := len + (to - from);
    if n <= a.Length {
      forall k | len <= k < n { a[k] := src[from + k - len]; }
      r := a;
    } else {
      var capacity: nat :| n <= capacity;
      r := new byte[capacity];
      forall k | 0 <= k < len { r[k] := a[k]; }
      forall k | len <= k < n { r[k] := src[from + k - len]; }
    }
    assert forall k | 0 <= k < len :: r[k] == old(a[k]);
    assert forall k | len <= k < n :: r[k] == old(src[from + k - len]);
  }

  /** One round of the search: the carry and the chunk are searched together; the carry is then
      rewritten, possibly over the array the haystack lies in, with the last |needle| - 1 bytes. */
  method Scan(carry: array<byte>, carried: nat, buf: array<byte>, n: nat, needle: seq<byte>)
    returns (found: bool, next: array<byte>, kept: nat)
    requires carry != buf && carried <= carry.Length && n <= buf.Length
    modifies carry
    ensures found <==> Contains(old(carry[..carried]) + old(buf[..n]), needle)
    ensures kept <= next.Length && (next == carry || fresh(next))
    ensures kept == if |needle| > 1 && carried + n > |needle| - 1 then |needle| - 1 else carried + n
    ensures !found ==> next[..kept] == (old(carry[..carried]) + old(buf[..n]))[carried + n - kept..]
  {
    var keep := |needle| - 1;
    var hay, len := Append(carry, carried, buf, 0, n);
    assert hay[..len] == old(carry[..carried]) + old(buf[..n]);
    var start := if keep > 0 && len > keep then len - keep else 0;
    next, kept := carry, len - start;
    found := Contains(hay[..len], needle);
    if found {
      next := hay;
    } else {
      ghost var tail := hay[start..len];
      assert tail == hay[..len][start..];
      next, kept := Append(carry, 0, hay, start, len);
      assert next[..kept] == tail;
    }
  }

  /** One read of a chunk into the buffer, and its search when it brought data. */
  method ReadChunk(carry: array<byte>, carried: nat, buf: array<byte>, chunk: seq<byte>, needle: seq<byte>,
                   ghost seen: seq<byte>)
    returns (found: bool, next: array<byte>, kept: nat)
    requires carry != buf && |chunk| <= buf.Length
    requires Carries(carry, carried, seen, needle) && (needle != [] ==> !Contains(seen, needle))
    modifies carry, buf
    ensures found <==> chunk != [] && (needle == [] || Contains(seen + chunk, needle))
    ensures next != buf && (next == carry || fresh(next))
    ensures !found ==> Carries(next, kept, seen + chunk, needle) && (needle != [] ==> !Contains(seen + chunk, needle))
  {
    hide Contains;
    ghost var tail := carry[..carried];
    forall k | 0 <= k < |chunk| { buf[k] := chunk[k]; }
    assert buf[..|chunk|] == chunk && carry[..carried] == tail;
    found, next, kept := false, carry, carried;
    if |chunk| > 0 {
      TailSuffices(tail, seen, chunk, needle);
      found, next, kept := Scan(carry, carried, buf, |chunk|, needle);
      TailMoves(tail, seen, chunk, needle, kept);
    } else {
      assert seen + chunk == seen;
    }
  }

  /** gzipContains over the decompressed chunks of a stream; the last read may bring data with its ending. */
  method StreamContains(chunks: seq<seq<byte>>, ending: Ending, needle: seq<byte>) returns (result: SearchResult)
    requires chunks != [] && forall i | 0 <= i < |chunks| :: |chunks[i]| <= BUFFER
    ensures needle != [] ==> (result == Found <==> Contains(Whole(chunks), needle))
    ensures needle == [] ==> (result == Found <==> Whole(chunks) != [])
    ensures result != Found ==> result == if ending.ReadFailure? then Failed else Absent
  {
    var buf := new byte[BUFFER];
    var carry := new byte[0];
    var carried: nat := 0;
    ghost var seen := [];
    NothingSeen(carry[..carried], chunks, needle);
    hide Contains, Carries, Whole;
    for i := 0 to |chunks|
      invariant fresh(buf) && fresh(carry) && carry != buf && buf.Length == BUFFER
      invariant seen == Whole(chunks[..i])
      invariant Carries(carry, carried, seen, needle)
      invariant if needle == [] then seen == [] else !Contains(seen, needle)
    {
      var found, next, kept := ReadChunk(carry, carried, buf, chunks[i], needle, seen);
      WholeStep(chunks, i);
      if found {
        FoundInWhole(chunks, i, needle);
        return Found;
      }
      seen := seen + chunks[i];
      carry, carried := next, kept;
    }
    assert chunks[..|chunks|] == chunks;
    result := if ending.ReadFailure? then Failed else Absent;
  }

  // ----- pruning -----

  datatype BackupFile = BackupFile(path: string, modified: int, size: int)

  predicate NewestFirst(files: seq<BackupFile>) {
    forall i, j | 0 <= i < j < |files| :: files[i].modified >= files[j].modified
  }

  predicate DistinctPaths(files: seq<BackupFile>) {
    forall i, j | 0 <= i < j < |files| :: files[i].path != files[j].path
  }

  function Paths(files: seq<BackupFile>): set<string> {
    set i | 0 <= i < |files| :: files[i].path
  }

  lemma PathsStep(files: seq<BackupFile>, i: nat)
    requires i < |files|
    ensures Paths(files[..i + 1]) == Paths(files[..i]) + {files[i].path}
    ensures DistinctPaths(files) ==> files[i].path !in Paths(files[..i])
  {
    assert files[..i + 1] == files[..i] + [files[i]];
    PathsAppend(files[..i], files[i]);
  }

  lemma PathsAppend(files: seq<BackupFile>, file: BackupFile)
    ensures Paths(files + [file]) == Paths(files) + {file.path}
  {
    var all := files + [file];
    assert file.path in Paths(all) by { assert all[|files|] == file; }
    forall p | p in Paths(files) ensures p in Paths(all) {
      var i :| 0 <= i < |files| && files[i].path == p;
      assert all[i].path == p;
    }
  }

  /** What is left in the directory after one more file was kept, or removed. */
  lemma PresentStep(before: set<string>, listed: set<string>, kept: set<string>, path: string)
    requires path !in listed && path !in kept
    ensures before - (listed - kept) == before - ((listed + {path}) - (kept + {path}))
    ensures before - (listed - kept) - {path} == before - ((listed + {path}) - kept)
  {
  }

  /** What is left after the last of the first files is removed as well. */
  lemma LastRemoved(before: set<string>, files: seq<BackupFile>, n: nat)
    requires DistinctPaths(files) && n < |files|
    ensures before - (Paths(files) - Paths(files[..n + 1])) - {files[n].path} ==
            before - (Paths(files) - Paths(files[..n]))
  {
    PathsStep(files, n);
    assert files[n].path in Paths(files);
  }

  lemma {:induction false} DistinctOnce(files: seq<BackupFile>, file: BackupFile)
    requires DistinctPaths(files)
    ensures multiset(files)[file] <= 1
  {
    if files != [] {
      var n := |files| - 1;
      DistinctOnce(files[..n], file);
      assert files == files[..n] + [files[n]];
      if files[n] == file { assert file !in files[..n]; }
    }
  }

  lemma SamePaths(a: seq<BackupFile>, b: seq<BackupFile>)
    requires multiset(a) == multiset(b)
    ensures Paths(a) == Paths(b)
    ensures DistinctPaths(a) ==> DistinctPaths(b)
  {
    PathsWithin(a, b);
    PathsWithin(b, a);
    if DistinctPaths(a) {
      forall i, j | 0 <= i < j < |b| ensures b[i].path != b[j].path {
        DistinctOnce(a, b[i]);
        Twice(b, i, j);
        assert b[i] in multiset(a) && b[j] in multiset(a);
        var k :| 0 <= k < |a| && a[k] == b[i];
        var l :| 0 <= l < |a| && a[l] == b[j];
      }
    }
  }

  lemma PathsWithin(a: seq<BackupFile>, b: seq<BackupFile>)
    requires multiset(a) <= multiset(b)
    ensures Paths(a) <= Paths(b)
  {
    forall p | p in Paths(a) ensures p in Paths(b) {
      var i :| 0 <= i < |a| && a[i].path == p;
      assert a[i] in multiset(b);
      var j :| 0 <= j < |b| && b[j] == a[i];
    }
  }

  lemma Twice(b: seq<BackupFile>, i: nat, j: nat)
    requires i < j < |b|
    ensures b[i] == b[j] ==> multiset(b)[b[i]] >= 2
  {
    assert b == b[..i] + [b[i]] + b[i + 1..j] + [b[j]] + b[j + 1..];
  }

  function Sum(files: seq<BackupFile>): int {
    if files == [] then 0 else Sum(files[..|files| - 1]) + files[|files| - 1].size
  }

  /** Sizes add up, file by file. */
  lemma {:induction false} SumAppend(a: seq<BackupFile>, b: seq<BackupFile>)
    ensures Sum(a + b) == Sum(a) + Sum(b)
    ensures forall f :: Sum([f]) == f.size
  {
    assert forall f: BackupFile :: [f][..0] == [];
    if b == [] {
      assert a + b == a;
    } else {
      var n := |b| - 1;
      SumAppend(a, b[..n]);
      assert (a + b)[..|a + b| - 1] == a + b[..n];
    }
  }

  /** What the retention loop leaves of the files in order: the first ones, the backup just made, and
      the files that cannot be removed. */
  function Retained(order: seq<BackupFile>, retain: int, keepPath: string, stuck: set<string>): seq<BackupFile> {
    if order == [] then []
    else
      var i := |order| - 1;
      var rest := Retained(order[..i], retain, keepPath, stuck);
      if i < retain || order[i].path == keepPath || order[i].path in stuck then rest + [order[i]] else rest
  }

  lemma {:induction false} RetainedFrom(order: seq<BackupFile>, retain: int, keepPath: string, stuck: set<string>)
    ensures multiset(Retained(order, retain, keepPath, stuck)) <= multiset(order)
  {
    if order != [] {
      var i := |order| - 1;
      RetainedFrom(order[..i], retain, keepPath, stuck);
      assert order == order[..i] + [order[i]];
    }
  }

  lemma RetainedElement(order: seq<BackupFile>, retain: int, keepPath: string, stuck: set<string>, k: nat)
    requires k < |Retained(order, retain, keepPath, stuck)|
    ensures exists a | 0 <= a < |order| :: order[a] == Retained(order, retain, keepPath, stuck)[k]
  {
    RetainedFrom(order, retain, keepPath, stuck);
    assert Retained(order, retain, keepPath, stuck)[k] in multiset(order);
  }

  /** Retention picks files in order. */
  lemma {:induction false} RetainedDistinct(order: seq<BackupFile>, retain: int, keepPath: string, stuck: set<string>)
    requires DistinctPaths(order)
    ensures DistinctPaths(Retained(order, retain, keepPath, stuck))
  {
    if order != [] {
      var i := |order| - 1;
      RetainedDistinct(order[..i], retain, keepPath, stuck);
      var rest := Retained(order[..i], retain, keepPath, stuck);
      forall k | 0 <= k < |rest| ensures rest[k].path != order[i].path {
        RetainedElement(order[..i], retain, keepPath, stuck, k);
      }
    }
  }

  lemma {:induction false} RetainedNewestFirst(order: seq<BackupFile>, retain: int, keepPath: string,
                                               stuck: set<string>)
    requires NewestFirst(order)
    ensures NewestFirst(Retained(order, retain, keepPath, stuck))
  {
    if order != [] {
      var i := |order| - 1;
      RetainedNewestFirst(order[..i], retain, keepPath, stuck);
      var rest := Retained(order[..i], retain, keepPath, stuck);
      forall k | 0 <= k < |rest| ensures rest[k].modified >= order[i].modified {
        RetainedElement(order[..i], retain, keepPath, stuck, k);
      }
    }
  }

  lemma {:induction false} RetainedIndex(order: seq<BackupFile>, retain: int, keepPath: string, stuck: set<string>,
                                         file: BackupFile)
    ensures file in Retained(order, retain, keepPath, stuck) <==>
      exists i | 0 <= i < |order| :: order[i] == file && (i < retain || file.path == keepPath || file.path in stuck)
  {
    if order != [] {
      var n := |order| - 1;
      RetainedIndex(order[..n], retain, keepPath, stuck, file);
      if i :| 0 <= i < |order| && order[i] == file && (i < retain || file.path == keepPath || file.path in stuck) {
        assert i < n ==> order[..n][i] == file;
      }
      if i :| 0 <= i < n && order[..n][i] == file && (i < retain || file.path == keepPath || file.path in stuck) {
        assert order[i] == file;
      }
    }
  }

  function Place(file: BackupFile, sorted: seq<BackupFile>): (r: seq<BackupFile>)
    ensures multiset(r) == multiset(sorted) + multiset{file}
  {
    if sorted == [] || file.modified >= sorted[0].modified then [file] + sorted
    else
      assert sorted == [sorted[0]] + sorted[1..];
      [sorted[0]] + Place(file, sorted[1..])
  }

  lemma {:induction false} PlaceKeepsOrder(file: BackupFile, sorted: seq<BackupFile>)
    requires NewestFirst(sorted)
    ensures NewestFirst(Place(file, sorted))
  {
    if sorted != [] && file.modified < sorted[0].modified {
      PlaceKeepsOrder(file, sorted[1..]);
      var r := Place(file, sorted[1..]);
      forall i | 0 <= i < |r| ensures r[i].modified <= sorted[0].modified {
        assert r[i] in multiset(r);
        assert r[i] == file || r[i] in sorted[1..];
      }
    }
  }

  /** sort.Slice, newest first: some order of the files; which one ties get is not promised. */
  method SortNewestFirst(files: seq<BackupFile>) returns (sorted: seq<BackupFile>)
    ensures multiset(sorted) == multiset(files) && NewestFirst(sorted)
  {
    sorted := [];
    for i := 0 to |files|
      invariant multiset(sorted) == multiset(files[..i]) && NewestFirst(sorted)
    {
      assert files[..i + 1] == files[..i] + [files[i]];
      PlaceKeepsOrder(files[i], sorted);
      sorted := Place(files[i], sorted);
    }
    assert files[..|files|] == files;
  }

  /** How pruning relates the files it found to those it leaves: retention over some newest-first
      order, then, under a size cap, the removal of oldest files while the cap is exceeded. */
  ghost predicate Pruned(order: seq<BackupFile>, retained: seq<BackupFile>, kept: seq<BackupFile>,
                         retain: int, maxBytes: int, keepPath: string, stuckFirst: set<string>,
                             stuckLater: set<string>) {
    NewestFirst(order) && NewestFirst(retained) &&
    multiset(retained) == multiset(Retained(order, retain, keepPath, stuckFirst)) &&
    kept <= retained &&
    (maxBytes <= 0 ==> kept == retained) &&
    (maxBytes > 0 ==> Stops(kept, maxBytes, keepPath, stuckLater)) &&
    forall j | |kept| <= j < |retained| :: Dropped(retained, j, maxBytes, keepPath, stuckLater)
  }

  /** The size-cap loop goes no further: under the cap, one file left, the new backup is the oldest
      left, or the oldest cannot be removed. */
  predicate Stops(kept: seq<BackupFile>, maxBytes: int, keepPath: string, stuck: set<string>) {
    |kept| <= 1 || Sum(kept) <= maxBytes || kept[|kept| - 1].path == keepPath || kept[|kept| - 1].path in stuck
  }

  /** File j was the oldest of several left, over the cap, not the new backup, and could be removed. */
  predicate Dropped(retained: seq<BackupFile>, j: nat, maxBytes: int, keepPath: string, stuck: set<string>) {
    0 < j < |retained| && Sum(retained[..j + 1]) > maxBytes && retained[j].path != keepPath &&
        retained[j].path !in stuck
  }

  class BackupDir {
    var present: set<string>

    constructor (present: set<string>)
      ensures this.present == present
    {
      this.present := present;
    }

    method Remove(path: string, stuck: set<string>) returns (ok: bool)
      modifies this
      ensures ok <==> path !in stuck
      ensures present == if ok then old(present) - {path} else old(present)
    {
      ok := path !in stuck;
      if ok { present := present - {path}; }
    }

    method PruneByCount(files: seq<BackupFile>, retain: int, keepPath: string, stuck: set<string>)
      returns (kept: seq<BackupFile>)
      requires DistinctPaths(files)
      modifies this
      ensures kept == Retained(files, retain, keepPath, stuck)
      ensures present == old(present) - (Paths(files) - Paths(kept))
    {
      kept := [];
      for i := 0 to |files|
        invariant kept == Retained(files[..i], retain, keepPath, stuck)
        invariant present == old(present) - (Paths(files[..i]) - Paths(kept))
      {
        assert files[..i + 1][..i] == files[..i];
        PathsStep(files, i);
        RetainedFrom(files[..i], retain, keepPath, stuck);
        PathsWithin(kept, files[..i]);
        PathsAppend(kept, files[i]);
        PresentStep(old(present), Paths(files[..i]), Paths(kept), files[i].path);
        hide Paths, Retained, DistinctPaths;
        if i < retain || files[i].path == keepPath {
          kept := kept + [files[i]];
        } else {
          var ok := Remove(files[i].path, stuck);
          if !ok { kept := kept + [files[i]]; }
        }
      }
      assert files[..|files|] == files;
    }

    method PruneBySize(retained: seq<BackupFile>, maxBytes: int, keepPath: string, stuck: set<string>)
      returns (kept: seq<BackupFile>, total: int)
      requires DistinctPaths(retained)
      modifies this
      ensures kept <= retained && total == Sum(kept)
      ensures Stops(kept, maxBytes, keepPath, stuck)
      ensures forall j | |kept| <= j < |retained| :: Dropped(retained, j, maxBytes, keepPath, stuck)
      ensures present == old(present) - (Paths(retained) - Paths(kept))
    {
      hide Paths, DistinctPaths;
      total := 0;
      for i := 0 to |retained|
        invariant total == Sum(retained[..i])
      {
        assert retained[..i + 1][..i] == retained[..i];
        total := total + retained[i].size;
      }
      kept := retained;
      assert retained[..|retained|] == retained;
      while |kept| > 1 && total > maxBytes
        invariant kept <= retained && total == Sum(kept)
        invariant forall j | |kept| <= j < |retained| :: Dropped(retained, j, maxBytes, keepPath, stuck)
        invariant present == old(present) - (Paths(retained) - Paths(kept))
      {
        var last := |kept| - 1;
        var oldest := kept[last];
        if oldest.path == keepPath { break; }
        var ok := Remove(oldest.path, stuck);
        if !ok { break; }
        assert kept == retained[..last + 1] && kept[..last] == retained[..last];
        LastRemoved(old(present), retained, last);
        assert kept <= retained;
        total := total - oldest.size;
        kept := kept[..last];
      }
    }

    /** pruneBackups over the listed backups. stuckFirst and stuckLater are the files whose removal
        fails in the retention loop and in the size-cap loop. */
    method Prune(listed: seq<BackupFile>, retain: int, maxBytes: int, keepPath: string,
                 stuckFirst: set<string>, stuckLater: set<string>)
      returns (kept: seq<BackupFile>, ghost order: seq<BackupFile>, ghost retained: seq<BackupFile>)
      requires DistinctPaths(listed)
      modifies this
      ensures multiset(order) == multiset(listed)
      ensures Pruned(order, retained, kept, retain, maxBytes, keepPath, stuckFirst, stuckLater)
      // What was listed and not kept is gone, and nothing else.
      ensures present == old(present) - (Paths(listed) - Paths(kept))
    {
      var files := SortNewestFirst(listed);
      order := files;
      SamePaths(listed, files);
      kept := PruneByCount(files, retain, keepPath, stuckFirst);
      retained := kept;
      RetainedFrom(files, retain, keepPath, stuckFirst);
      RetainedDistinct(files, retain, keepPath, stuckFirst);
      RetainedNewestFirst(files, retain, keepPath, stuckFirst);
      PathsWithin(kept, files);
      if maxBytes <= 0 {
        return;
      }
      var sorted := SortNewestFirst(kept);
      SamePaths(retained, sorted);
      retained := sorted;
      var total: int;
      kept, total := PruneBySize(sorted, maxBytes, keepPath, stuckLater);
    }
  }

  // ----- what pruning guarantees -----

  /** Retention goes by age: of a newest-first order it keeps the first files, the new backup and what
      cannot be removed. */
  lemma RetentionExactly(order: seq<BackupFile>, retained: seq<BackupFile>, kept: seq<BackupFile>,
                         retain: int, maxBytes: int, keepPath: string, stuckFirst: set<string>,
                         stuckLater: set<string>, file: BackupFile)
    requires Pruned(order, retained, kept, retain, maxBytes, keepPath, stuckFirst, stuckLater)
    ensures forall i, j | 0 <= i < j < |order| :: order[i].modified >= order[j].modified
    ensures file in retained <==>
            exists i | 0 <= i < |order| ::
              order[i] == file && (i < retain || file.path == keepPath || file.path in stuckFirst)
  {
    hide Sum, Retained, Stops, Dropped;
    RetainedIndex(order, retain, keepPath, stuckFirst, file);
    assert file in retained <==> file in multiset(retained);
  }

  /** The cap then takes the oldest, one by one, while it is exceeded and the oldest may go; without a cap
      nothing more is taken. */
  lemma CapExactly(order: seq<BackupFile>, retained: seq<BackupFile>, kept: seq<BackupFile>,
                   retain: int, maxBytes: int, keepPath: string, stuckFirst: set<string>, stuckLater: set<string>,
                   j: nat)
    requires Pruned(order, retained, kept, retain, maxBytes, keepPath, stuckFirst, stuckLater)
    ensures kept <= retained && forall i, k | 0 <= i < k < |retained| :: retained[i].modified >= retained[k].modified
    ensures maxBytes <= 0 ==> kept == retained
    ensures |kept| <= j < |retained| ==>
              && j > 0 && Sum(retained[..j + 1]) > maxBytes
              && retained[j].path != keepPath && retained[j].path !in stuckLater
    ensures maxBytes > 0 && |kept| > 1 ==>
              var oldest := kept[|kept| - 1];
              Sum(kept) <= maxBytes || oldest.path == keepPath || oldest.path in stuckLater
  {
    hide Sum, Retained;
    if |kept| <= j < |retained| { assert Dropped(retained, j, maxBytes, keepPath, stuckLater); }
  }

  /** The backup just made is never deleted. */
  lemma NewBackupSurvives(order: seq<BackupFile>, retained: seq<BackupFile>, kept: seq<BackupFile>,
                          retain: int, maxBytes: int, keepPath: string, stuckFirst: set<string>,
                              stuckLater: set<string>)
    requires Pruned(order, retained, kept, retain, maxBytes, keepPath, stuckFirst, stuckLater)
    requires keepPath in Paths(order)
    ensures keepPath in Paths(kept)
  {
    hide Stops;
    var a :| 0 <= a < |order| && order[a].path == keepPath;
    RetainedIndex(order, retain, keepPath, stuckFirst, order[a]);
    assert order[a] in multiset(retained);
    var j :| 0 <= j < |retained| && retained[j] == order[a];
    assert j < |kept| by { assert j >= |kept| ==> Dropped(retained, j, maxBytes, keepPath, stuckLater); }
    assert kept[j].path == keepPath;
  }

  /** Every survivor is at least as new as every deleted file, but for the backup just made and files
      that could not be removed: the survivors are a prefix of a newest-first order plus those. */
  lemma SurvivorsAreNewest(order: seq<BackupFile>, retained: seq<BackupFile>, kept: seq<BackupFile>,
                           retain: int, maxBytes: int, keepPath: string, stuckFirst: set<string>,
                               stuckLater: set<string>,
                           f: BackupFile, g: BackupFile)
    requires Pruned(order, retained, kept, retain, maxBytes, keepPath, stuckFirst, stuckLater)
    requires f in kept && g in order && g !in kept
    ensures f.path == keepPath || f.path in stuckFirst || f.modified >= g.modified
  {
    hide Stops, Dropped;
    var i :| 0 <= i < |kept| && kept[i] == f;
    assert retained[i] == f;
    if g in retained {
      var later := retained[|kept|..];
      assert retained == kept + later;
      var j :| 0 <= j < |later| && later[j] == g;
      assert retained[|kept| + j] == g;
    } else {
      assert f in multiset(retained);
      RetainedIndex(order, retain, keepPath, stuckFirst, f);
      RetainedIndex(order, retain, keepPath, stuckFirst, g);
      assert g !in multiset(retained);
      var b :| 0 <= b < |order| && order[b] == g;
    }
  }

  /** When every removal succeeds, retention leaves the first files of the order and, behind them,
      the new backup. */
  lemma {:induction false} RetainedExactly(order: seq<BackupFile>, retain: int, keepPath: string)
    ensures var first := if retain < 0 then 0 else if retain < |order| then retain else |order|;
      Retained(order, retain, keepPath, {}) == order[..first] + NamedIn(order[first..], keepPath)
  {
    if order != [] {
      var n := |order| - 1;
      var first := if retain < 0 then 0 else if retain < |order| then retain else |order|;
      RetainedExactly(order[..n], retain, keepPath);
      if first <= n {
        assert order[..n][..first] == order[..first];
        assert order[first..][..n - first] == order[..n][first..];
      } else {
        assert order[..n][..n] == order[..n] && order[..first] == order && order[..n][n..] == [];
      }
    }
  }

  /** The files with a given path. */
  function NamedIn(files: seq<BackupFile>, path: string): seq<BackupFile> {
    if files == [] then []
    else
      var rest := NamedIn(files[..|files| - 1], path);
      if files[|files| - 1].path == path then rest + [files[|files| - 1]] else rest
  }

  /** With a cap and every removal succeeding, pruning ends under the cap, with one file, or with the
      new backup as the oldest left; and no deletion was unnecessary: with the last deleted file the
      cap would be exceeded. */
  lemma CapIsReached(order: seq<BackupFile>, retained: seq<BackupFile>, kept: seq<BackupFile>,
                     retain: int, maxBytes: int, keepPath: string, stuckFirst: set<string>)
    requires Pruned(order, retained, kept, retain, maxBytes, keepPath, stuckFirst, {}) && maxBytes > 0
    ensures Sum(kept) <= maxBytes || |kept| <= 1 || kept[|kept| - 1].path == keepPath
    ensures |kept| < |retained| ==> Sum(kept) + retained[|kept|].size > maxBytes
    ensures Sum(retained) <= maxBytes ==> kept == retained
  {
    var k := |kept|;
    assert Stops(kept, maxBytes, keepPath, {});
    if k < |retained| {
      assert Dropped(retained, k, maxBytes, keepPath, {});
      assert Dropped(retained, |retained| - 1, maxBytes, keepPath, {});
      hide Retained, NewestFirst;
      assert retained[..k + 1][..k] == kept && retained[..|retained| - 1 + 1] == retained;
    }
  }
}
