/**
 Building an asset catalog: the queue of distinct files and byte inputs, and the encoding
 of the queue within a total number of bytes, one item after the other or in concurrent
 chunks.
 */
module Catalog {
  import opened Options
  import opened Sequences

  type Path = nat

  datatype Item = File(path: Path) | Bytes(input: nat)

  // ---------------------------------------------------------------- the queue

  /** An input in its given order: a normalized root to discover, or bytes. */
  datatype Input = Root(root: nat) | ByteInput(input: nat)

  /** What the file system answers: the files under a root, and the identity behind a path. */
  datatype Disk = Disk(discover: nat -> seq<Path>, canonical: Path -> nat)

  /** `actual` is the count that broke the limit, and `path` the file that did. */
  datatype Queued = Queue(items: seq<Item>) | TooManyFiles(actual: nat, path: Path)

  /** All inputs in order, every file a root leads to in its place. */
  function Listed(disk: Disk, inputs: seq<Input>): seq<Item> {
    if inputs == [] then []
    else
      var n := |inputs| - 1;
      Listed(disk, inputs[..n]) + ListedOne(disk, inputs[n])
  }

  function ListedOne(disk: Disk, input: Input): (r: seq<Item>)
    ensures input.ByteInput? ==> r == [Bytes(input.input)]
    ensures input.Root? ==> r == FilesOf(disk.discover(input.root))
  {
    if input.ByteInput? then [Bytes(input.input)] else FilesOf(disk.discover(input.root))
  }

  function FilesOf(paths: seq<Path>): (r: seq<Item>)
    ensures |r| == |paths| && forall i :: 0 <= i < |r| ==> r[i] == File(paths[i])
  {
    seq(|paths|, i requires 0 <= i < |paths| => File(paths[i]))
  }

  /** The identities of the files among some items. */
  function Identities(disk: Disk, items: seq<Item>): set<nat> {
    set i | 0 <= i < |items| && items[i].File? :: disk.canonical(items[i].path)
  }

  predicate IsRepeated(disk: Disk, before: seq<Item>, item: Item) {
    item.File? && disk.canonical(item.path) in Identities(disk, before)
  }

  /** Bytes, and files whose identity occurs for the first time. */
  function FirstOccurrences(disk: Disk, items: seq<Item>): seq<Item> {
    if items == [] then []
    else
      var n := |items| - 1;
      FirstOccurrences(disk, items[..n]) + if IsRepeated(disk, items[..n], items[n]) then [] else [items[n]]
  }

  /** The queue, or the first file too many. */
  function Enqueue(disk: Disk, items: seq<Item>, maxFiles: nat): Queued {
    if items == [] then Queue([])
    else
      var n := |items| - 1;
      match Enqueue(disk, items[..n], maxFiles)
      case TooManyFiles(actual, path) => TooManyFiles(actual, path)
      case Queue(queue) =>
        if IsRepeated(disk, items[..n], items[n]) then Queue(queue)
        else if items[n].File? && |Identities(disk, items[..n])| >= maxFiles
        then TooManyFiles(|Identities(disk, items[..n])| + 1, items[n].path)
        else Queue(queue + [items[n]])
  }

  lemma IdentitiesStep(disk: Disk, items: seq<Item>)
    requires items != []
    ensures
      var n := |items| - 1;
      Identities(disk, items)
      == Identities(disk, items[..n]) + if items[n].File? then {disk.canonical(items[n].path)} else {}
  {
    var n := |items| - 1;
    forall x | x in Identities(disk, items)
      ensures x in Identities(disk, items[..n]) || (items[n].File? && x == disk.canonical(items[n].path))
    {
      var i :| 0 <= i < |items| && items[i].File? && disk.canonical(items[i].path) == x;
      if i < n {
        assert items[..n][i] == items[i];
      }
    }
    forall x | x in Identities(disk, items[..n])
      ensures x in Identities(disk, items)
    {
      var i :| 0 <= i < n && items[..n][i].File? && disk.canonical(items[..n][i].path) == x;
      assert items[i] == items[..n][i];
    }
  }

  lemma IdentitiesAdd(disk: Disk, a: seq<Item>, b: Item)
    ensures Identities(disk, a + [b]) == Identities(disk, a) + if b.File? then {disk.canonical(b.path)} else {}
  {
    IdentitiesStep(disk, a + [b]);
    assert (a + [b])[..|a|] == a;
  }

  predicate AreDistinct(disk: Disk, items: seq<Item>) {
    forall i, j :: 0 <= i < j < |items| && items[i].File? && items[j].File? ==>
                     disk.canonical(items[i].path) != disk.canonical(items[j].path)
  }

  /**
   The queue holds the first occurrence of every file and all bytes, in order; the files
   are distinct, and there is a queue exactly when they are no more than the limit.
   */
  lemma {:induction false} QueueHoldsFirstOccurrences(disk: Disk, items: seq<Item>, maxFiles: nat)
    ensures Enqueue(disk, items, maxFiles).Queue? <==> |Identities(disk, items)| <= maxFiles
    ensures Enqueue(disk, items, maxFiles).Queue? ==>
              Enqueue(disk, items, maxFiles).items == FirstOccurrences(disk, items)
    ensures Enqueue(disk, items, maxFiles).TooManyFiles? ==> Enqueue(disk, items, maxFiles).actual == maxFiles + 1
  {
    if items != [] {
      var n := |items| - 1;
      QueueHoldsFirstOccurrences(disk, items[..n], maxFiles);
      IdentitiesStep(disk, items);
      var before := Identities(disk, items[..n]);
      if items[n].File? && !IsRepeated(disk, items[..n], items[n]) {
        assert |before + {disk.canonical(items[n].path)}| == |before| + 1;
      } else {
        assert Identities(disk, items) == before;
      }
    }
  }

  lemma {:induction false} FirstOccurrencesAreDistinct(disk: Disk, items: seq<Item>)
    ensures AreDistinct(disk, FirstOccurrences(disk, items))
    ensures Identities(disk, FirstOccurrences(disk, items)) == Identities(disk, items)
  {
    if items != [] {
      var n := |items| - 1;
      var firsts := FirstOccurrences(disk, items[..n]);
      FirstOccurrencesAreDistinct(disk, items[..n]);
      IdentitiesStep(disk, items);
      if IsRepeated(disk, items[..n], items[n]) {
        assert FirstOccurrences(disk, items) == firsts;
      } else {
        IdentitiesAdd(disk, firsts, items[n]);
        forall i | 0 <= i < |firsts| && firsts[i].File? && items[n].File?
          ensures disk.canonical(firsts[i].path) != disk.canonical(items[n].path)
        {
          assert disk.canonical(firsts[i].path) in Identities(disk, firsts);
        }
      }
    }
  }

  /** Bytes, or a file whose identity no earlier item has. */
  ghost predicate IsFirst(disk: Disk, items: seq<Item>, i: nat)
    requires i < |items|
  {
    items[i].Bytes? ||
    forall j :: 0 <= j < i && items[j].File? ==> disk.canonical(items[j].path) != disk.canonical(items[i].path)
  }

  /**
   The first occurrences are the items at `kept`, in their order: every byte input is kept, and
   of the files with one identity the first.
   */
  lemma {:induction false} FirstOccurrencesKeepOrder(disk: Disk, items: seq<Item>) returns (kept: seq<nat>)
    ensures |kept| == |FirstOccurrences(disk, items)|
    ensures forall k :: 0 <= k < |kept| ==>
                          kept[k] < |items| && FirstOccurrences(disk, items)[k] == items[kept[k]]
    ensures forall j, k :: 0 <= j < k < |kept| ==> kept[j] < kept[k]
    ensures forall i :: 0 <= i < |items| ==> (i in kept <==> IsFirst(disk, items, i))
  {
    kept := [];
    if items != [] {
      var n := |items| - 1;
      var before := FirstOccurrencesKeepOrder(disk, items[..n]);
      RepeatedIffNotFirst(disk, items);
      FirstIsDecidedBefore(disk, items, n);
      kept := before + if IsFirst(disk, items, n) then [n] else [];
      forall i | 0 <= i < |items|
        ensures i in kept <==> IsFirst(disk, items, i)
      {
        assert i < n ==> (i in before <==> IsFirst(disk, items[..n], i));
      }
    }
  }

  lemma FirstIsDecidedBefore(disk: Disk, items: seq<Item>, n: nat)
    requires n <= |items|
    ensures forall i :: 0 <= i < n ==> (IsFirst(disk, items, i) <==> IsFirst(disk, items[..n], i))
  {
    forall i | 0 <= i < n
      ensures IsFirst(disk, items, i) <==> IsFirst(disk, items[..n], i)
    {
      assert forall j :: 0 <= j < i ==> items[..n][j] == items[j];
    }
  }

  lemma RepeatedIffNotFirst(disk: Disk, items: seq<Item>)
    requires items != []
    ensures IsRepeated(disk, items[..|items| - 1], items[|items| - 1]) <==> !IsFirst(disk, items, |items| - 1)
  {
    var n := |items| - 1;
    var before := items[..n];
    if items[n].File? {
      if IsRepeated(disk, before, items[n]) {
        var i :| 0 <= i < n && before[i].File? && disk.canonical(before[i].path) == disk.canonical(items[n].path);
        assert items[i] == before[i];
      }
      if i :| 0 <= i < n && items[i].File? && disk.canonical(items[i].path) == disk.canonical(items[n].path) {
        assert before[i] == items[i];
      }
    }
  }

  /** The file reported as one too many is the first to come when as many as allowed have come. */
  lemma {:induction false} ExcessIsTheNextFile(disk: Disk, items: seq<Item>, maxFiles: nat) returns (i: nat)
    requires Enqueue(disk, items, maxFiles).TooManyFiles?
    ensures i < |items| && items[i].File? && IsFirst(disk, items, i)
    ensures Enqueue(disk, items, maxFiles) == TooManyFiles(maxFiles + 1, items[i].path)
    ensures |Identities(disk, items[..i])| == maxFiles
  {
    i := |items| - 1;
    if Enqueue(disk, items[..i], maxFiles).TooManyFiles? {
      var k := ExcessIsTheNextFile(disk, items[..i], maxFiles);
      assert items[..i][..k] == items[..k];
      i := k;
    } else {
      QueueHoldsFirstOccurrences(disk, items[..i], maxFiles);
      RepeatedIffNotFirst(disk, items);
    }
  }

  /** An input is listed in its place: bytes as they are, a root as the files it leads to. */
  lemma InputsAreListedInPlace(disk: Disk, before: seq<Input>, input: Input, after: seq<Input>)
    ensures Listed(disk, before + [input] + after)
         == Listed(disk, before) + ListedOne(disk, input) + Listed(disk, after)
  {
    ListedInParts(disk, before + [input], after);
    ListedLast(disk, before, input);
  }

  lemma ListedLast(disk: Disk, before: seq<Input>, input: Input)
    ensures Listed(disk, before + [input]) == Listed(disk, before) + ListedOne(disk, input)
  {
    assert (before + [input])[..|before|] == before;
  }

  ghost predicate AreListedInParts(disk: Disk, a: seq<Input>, b: seq<Input>) {
    Listed(disk, a + b) == Listed(disk, a) + Listed(disk, b)
  }

  lemma NothingMoreListed(disk: Disk, a: seq<Input>)
    ensures AreListedInParts(disk, a, [])
  {
    assert a + [] == a;
  }

  lemma OneMoreListed(disk: Disk, a: seq<Input>, front: seq<Input>, last: Input)
    requires AreListedInParts(disk, a, front)
    ensures AreListedInParts(disk, a, front + [last])
  {
    Associate(a, front, [last]);
    ListedLast(disk, a + front, last);
    ListedLast(disk, front, last);
    Associate(Listed(disk, a), Listed(disk, front), ListedOne(disk, last));
  }

  lemma {:induction false} ListedInParts(disk: Disk, a: seq<Input>, b: seq<Input>)
    ensures AreListedInParts(disk, a, b)
  {
    if b == [] {
      NothingMoreListed(disk, a);
    } else {
      var front, last := b[..|b| - 1], b[|b| - 1];
      ListedInParts(disk, a, front);
      OneMoreListed(disk, a, front, last);
      assert front + [last] == b;
    }
  }

  lemma {:induction false} OverflowIsFinal(disk: Disk, items: seq<Item>, i: nat, maxFiles: nat)
    requires i <= |items| && Enqueue(disk, items[..i], maxFiles).TooManyFiles?
    ensures Enqueue(disk, items, maxFiles) == Enqueue(disk, items[..i], maxFiles)
  {
    if i < |items| {
      var n := |items| - 1;
      assert items[..n][..i] == items[..i];
      OverflowIsFinal(disk, items[..n], i, maxFiles);
    } else {
      assert items[..i] == items;
    }
  }

  lemma {:induction false} ListedPrefix(disk: Disk, inputs: seq<Input>, x: nat)
    requires x <= |inputs|
    ensures |Listed(disk, inputs[..x])| <= |Listed(disk, inputs)|
    ensures Listed(disk, inputs)[..|Listed(disk, inputs[..x])|] == Listed(disk, inputs[..x])
  {
    if x < |inputs| {
      var n := |inputs| - 1;
      assert inputs[..n][..x] == inputs[..x];
      ListedPrefix(disk, inputs[..n], x);
    } else {
      assert inputs[..x] == inputs;
    }
  }

  /** Adds one item to the queue, unless its file is there already or is one too many. */
  method EnqueueItem(disk: Disk, ghost before: seq<Item>, item: Item, queue: seq<Item>, seen: set<nat>, maxFiles: nat)
    returns (r: Queued, seen': set<nat>)
    requires Enqueue(disk, before, maxFiles) == Queue(queue) && seen == Identities(disk, before)
    ensures r == Enqueue(disk, before + [item], maxFiles)
    ensures r.Queue? ==> seen' == Identities(disk, before + [item])
  {
    assert (before + [item])[..|before|] == before;
    IdentitiesAdd(disk, before, item);
    seen' := seen;
    if item.File? {
      var identity := disk.canonical(item.path);
      if identity in seen {
        assert seen + {identity} == seen;
        return Queue(queue), seen';
      }
      if |seen| >= maxFiles {
        return TooManyFiles(|seen| + 1, item.path), seen';
      }
      seen' := seen + {identity};
    }
    r := Queue(queue + [item]);
  }

  method EnqueueFiles(disk: Disk, ghost before: seq<Item>, files: seq<Path>, queue: seq<Item>,
                      seen: set<nat>, maxFiles: nat)
    returns (r: Queued, seen': set<nat>)
    requires Enqueue(disk, before, maxFiles) == Queue(queue) && seen == Identities(disk, before)
    ensures r == Enqueue(disk, before + FilesOf(files), maxFiles)
    ensures r.Queue? ==> seen' == Identities(disk, before + FilesOf(files))
  {
    r, seen' := Queue(queue), seen;
    assert before + FilesOf([]) == before;
    for k := 0 to |files|
      invariant r.Queue? && r == Enqueue(disk, before + FilesOf(files[..k]), maxFiles)
      invariant seen' == Identities(disk, before + FilesOf(files[..k]))
    {
      OneMoreFile(disk, before, files, k, maxFiles);
      r, seen' := EnqueueItem(disk, before + FilesOf(files[..k]), File(files[k]), r.items, seen', maxFiles);
      if r.TooManyFiles? {
        return;
      }
    }
    assert files[..|files|] == files;
  }

  lemma OneMoreFile(disk: Disk, before: seq<Item>, files: seq<Path>, k: nat, maxFiles: nat)
    requires k < |files|
    ensures before + FilesOf(files[..k + 1]) == before + FilesOf(files[..k]) + [File(files[k])]
    ensures Enqueue(disk, before + FilesOf(files[..k + 1]), maxFiles).TooManyFiles? ==>
              Enqueue(disk, before + FilesOf(files), maxFiles)
              == Enqueue(disk, before + FilesOf(files[..k + 1]), maxFiles)
  {
    var n := |before| + k + 1;
    assert (before + FilesOf(files))[..n] == before + FilesOf(files[..k + 1]);
    if Enqueue(disk, before + FilesOf(files[..k + 1]), maxFiles).TooManyFiles? {
      OverflowIsFinal(disk, before + FilesOf(files), n, maxFiles);
    }
  }

  lemma ListedStep(disk: Disk, inputs: seq<Input>, x: nat, maxFiles: nat)
    requires x < |inputs|
    ensures Listed(disk, inputs[..x + 1]) == Listed(disk, inputs[..x]) + ListedOne(disk, inputs[x])
    ensures Enqueue(disk, Listed(disk, inputs[..x + 1]), maxFiles).TooManyFiles? ==>
              Enqueue(disk, Listed(disk, inputs), maxFiles) == Enqueue(disk, Listed(disk, inputs[..x + 1]), maxFiles)
  {
    Prefix(inputs, x);
    ListedPrefix(disk, inputs, x + 1);
    if Enqueue(disk, Listed(disk, inputs[..x + 1]), maxFiles).TooManyFiles? {
      OverflowIsFinal(disk, Listed(disk, inputs), |Listed(disk, inputs[..x + 1])|, maxFiles);
    }
  }

  /** Each root is discovered once, however often it is given. */
  method EnqueueInput(disk: Disk, ghost before: seq<Item>, input: Input, queue: seq<Item>, seen: set<nat>,
                      cache: map<nat, seq<Path>>, maxFiles: nat)
    returns (r: Queued, seen': set<nat>, cache': map<nat, seq<Path>>)
    requires Enqueue(disk, before, maxFiles) == Queue(queue) && seen == Identities(disk, before)
    requires forall root :: root in cache ==> cache[root] == disk.discover(root)
    ensures r == Enqueue(disk, before + ListedOne(disk, input), maxFiles)
    ensures r.Queue? ==> seen' == Identities(disk, before + ListedOne(disk, input))
    ensures forall root :: root in cache' ==> cache'[root] == disk.discover(root)
  {
    cache' := cache;
    if input.ByteInput? {
      r, seen' := EnqueueItem(disk, before, Bytes(input.input), queue, seen, maxFiles);
    } else {
      if input.root !in cache {
        cache' := cache[input.root := disk.discover(input.root)];
      }
      r, seen' := EnqueueFiles(disk, before, cache'[input.root], queue, seen, maxFiles);
    }
  }

  method BuildOrderedQueue(disk: Disk, inputs: seq<Input>, maxFiles: nat) returns (r: Queued)
    ensures r == Enqueue(disk, Listed(disk, inputs), maxFiles)
  {
    var cache: map<nat, seq<Path>> := map[];
    var seen: set<nat> := {};
    r := Queue([]);
    for x := 0 to |inputs|
      invariant r.Queue? && r == Enqueue(disk, Listed(disk, inputs[..x]), maxFiles)
      invariant seen == Identities(disk, Listed(disk, inputs[..x]))
      invariant forall root :: root in cache ==> cache[root] == disk.discover(root)
    {
      ListedStep(disk, inputs, x, maxFiles);
      r, seen, cache := EnqueueInput(disk, Listed(disk, inputs[..x]), inputs[x], r.items, seen, cache, maxFiles);
      if r.TooManyFiles? {
        return;
      }
    }
    assert inputs[..|inputs|] == inputs;
  }

  // ---------------------------------------------------------------- encoding within a budget

  datatype Asset = Asset(item: Item, byteLength: nat)

  datatype Built = Assets(assets: seq<Asset>) | TooManyBytes(total: nat, at: Item)

  /** The size of every item, and whether it can be inspected before the item is encoded. */
  datatype Sizes = Sizes(length: Item -> nat, inspectable: Item -> bool)

  function Total(sizes: Sizes, items: seq<Item>): nat {
    if items == [] then 0 else Total(sizes, items[..|items| - 1]) + sizes.length(items[|items| - 1])
  }

  function Encoded(sizes: Sizes, items: seq<Item>): (r: seq<Asset>)
    ensures |r| == |items| && forall i :: 0 <= i < |r| ==> r[i] == Asset(items[i], sizes.length(items[i]))
  {
    seq(|items|, i requires 0 <= i < |items| => Asset(items[i], sizes.length(items[i])))
  }

  /** All items encoded, or the total with the first item that exceeds the limit. */
  function Build(sizes: Sizes, items: seq<Item>, limit: nat): Built {
    if items == [] then Assets([])
    else
      var n := |items| - 1;
      match Build(sizes, items[..n], limit)
      case TooManyBytes(total, at) => TooManyBytes(total, at)
      case Assets(assets) =>
        var total := Total(sizes, items[..n]) + sizes.length(items[n]);
        if total > limit then TooManyBytes(total, items[n])
        else Assets(assets + [Asset(items[n], sizes.length(items[n]))])
  }

  /** A catalog is built exactly when all items fit, and holds them all in order. */
  lemma {:induction false} BuiltIffAllFit(sizes: Sizes, items: seq<Item>, limit: nat)
    ensures Build(sizes, items, limit).Assets? <==> Total(sizes, items) <= limit
    ensures Build(sizes, items, limit).Assets? ==> Build(sizes, items, limit).assets == Encoded(sizes, items)
    ensures Build(sizes, items, limit).TooManyBytes? ==> Build(sizes, items, limit).total > limit
  {
    if items != [] {
      BuiltIffAllFit(sizes, items[..|items| - 1], limit);
    }
  }

  lemma {:induction false} ExcessIsFinal(sizes: Sizes, items: seq<Item>, i: nat, limit: nat)
    requires i <= |items| && Build(sizes, items[..i], limit).TooManyBytes?
    ensures Build(sizes, items, limit) == Build(sizes, items[..i], limit)
  {
    if i < |items| {
      var n := |items| - 1;
      assert items[..n][..i] == items[..i];
      ExcessIsFinal(sizes, items[..n], i, limit);
    } else {
      assert items[..i] == items;
    }
  }

  /** The excess reported is the first: the total up to and including the item that no longer fits. */
  lemma {:induction false} ExcessIsTheNextItem(sizes: Sizes, items: seq<Item>, limit: nat) returns (i: nat)
    requires Build(sizes, items, limit).TooManyBytes?
    ensures i < |items| && Total(sizes, items[..i]) <= limit < Total(sizes, items[..i + 1])
    ensures Build(sizes, items, limit) == TooManyBytes(Total(sizes, items[..i + 1]), items[i])
  {
    i := |items| - 1;
    if Build(sizes, items[..i], limit).TooManyBytes? {
      var k := ExcessIsTheNextItem(sizes, items[..i], limit);
      assert items[..i][..k] == items[..k] && items[..i][..k + 1] == items[..k + 1];
      i := k;
    } else {
      BuiltIffAllFit(sizes, items[..i], limit);
      Prefix(items, i);
      assert items[..i + 1] == items;
    }
  }

  /** Accounts for one encoded item: a new total, or the error that ends the build. */
  lemma BuildStep(sizes: Sizes, items: seq<Item>, i: nat, limit: nat, assets: seq<Asset>)
    requires i < |items| && Build(sizes, items[..i], limit) == Assets(assets)
    ensures Total(sizes, items[..i + 1]) == Total(sizes, items[..i]) + sizes.length(items[i])
    ensures Total(sizes, items[..i + 1]) > limit ==>
              Build(sizes, items, limit) == TooManyBytes(Total(sizes, items[..i + 1]), items[i])
    ensures Total(sizes, items[..i + 1]) <= limit ==>
              Build(sizes, items[..i + 1], limit) == Assets(assets + [Asset(items[i], sizes.length(items[i]))])
  {
    Prefix(items, i);
    if Total(sizes, items[..i + 1]) > limit {
      ExcessIsFinal(sizes, items, i + 1, limit);
    }
  }

  /** One item after the other. */
  method BuildSequentially(sizes: Sizes, items: seq<Item>, limit: nat) returns (r: Built)
    ensures r == Build(sizes, items, limit)
  {
    var encoded: seq<Asset> := [];
    var totalBytes := 0;
    for i := 0 to |items|
      invariant Build(sizes, items[..i], limit) == Assets(encoded) && totalBytes == Total(sizes, items[..i])
    {
      BuildStep(sizes, items, i, limit, encoded);
      var asset := Asset(items[i], sizes.length(items[i]));
      totalBytes := totalBytes + asset.byteLength;
      if totalBytes > limit {
        return TooManyBytes(totalBytes, items[i]);
      }
      encoded := encoded + [asset];
    }
    assert items[..|items|] == items;
    return Assets(encoded);
  }

  function Min(a: nat, b: nat): nat {
    if a < b then a else b
  }

  /** The sizes known before encoding, of the items from `from` up to `to`. */
  function Planned(sizes: Sizes, items: seq<Item>, from: nat, to: nat): nat
    requires from <= to <= |items|
  {
    if from == to then 0
    else
      Planned(sizes, items, from, to - 1)
      + if sizes.inspectable(items[to - 1]) then sizes.length(items[to - 1]) else 0
  }

  /** What is planned never exceeds what the items take. */
  lemma {:induction false} PlannedAtMostTotal(sizes: Sizes, items: seq<Item>, from: nat, to: nat)
    requires from <= to <= |items|
    ensures Total(sizes, items[..from]) + Planned(sizes, items, from, to) <= Total(sizes, items[..to])
  {
    if from < to {
      PlannedAtMostTotal(sizes, items, from, to - 1);
      Prefix(items, to - 1);
    }
  }

  /** How many items of the next chunk fit what remains, as far as their sizes are known. */
  method PlanChunk(sizes: Sizes, items: seq<Item>, offset: nat, chunkSize: nat, remaining: nat) returns (fitting: nat)
    requires offset <= |items|
    ensures offset + fitting <= Min(|items|, offset + chunkSize)
    ensures Planned(sizes, items, offset, offset + fitting) <= remaining
    ensures offset + fitting < Min(|items|, offset + chunkSize) ==>
              && sizes.inspectable(items[offset + fitting])
              && Planned(sizes, items, offset, offset + fitting) + sizes.length(items[offset + fitting]) > remaining
  {
    var end := Min(|items|, offset + chunkSize);
    var planned := 0;
    for i := offset to end
      invariant planned == Planned(sizes, items, offset, i) <= remaining
    {
      if sizes.inspectable(items[i]) {
        var size := sizes.length(items[i]);
        if planned + size > remaining {
          return i - offset;
        }
        planned := planned + size;
      }
    }
    return end - offset;
  }

  /** Accounts for the encoded items of one chunk, in order. */
  method AccountChunk(sizes: Sizes, items: seq<Item>, from: nat, to: nat, limit: nat,
                      encoded: seq<Asset>, totalBytes: nat)
    returns (r: Built, total: nat)
    requires from <= to <= |items|
    requires Build(sizes, items[..from], limit) == Assets(encoded) && totalBytes == Total(sizes, items[..from])
    ensures r.Assets? ==> r == Build(sizes, items[..to], limit) && total == Total(sizes, items[..to])
    ensures r.TooManyBytes? ==> r == Build(sizes, items, limit)
  {
    var chunk := Encoded(sizes, items[from..to]);
    var assets := encoded;
    total := totalBytes;
    for k := from to to
      invariant Build(sizes, items[..k], limit) == Assets(assets) && total == Total(sizes, items[..k])
    {
      BuildStep(sizes, items, k, limit, assets);
      var asset := chunk[k - from];
      total := total + asset.byteLength;
      if total > limit {
        return TooManyBytes(total, asset.item), total;
      }
      assets := assets + [asset];
    }
    r := Assets(assets);
  }

  /** A chunk that was cut short is followed by the item that exceeds the limit. */
  lemma ChunkExceeds(sizes: Sizes, items: seq<Item>, from: nat, to: nat, limit: nat, assets: seq<Asset>)
    requires from <= to < |items| && Build(sizes, items[..to], limit) == Assets(assets)
    requires Total(sizes, items[..from]) + Planned(sizes, items, from, to) + sizes.length(items[to]) > limit
    ensures Build(sizes, items, limit) == TooManyBytes(Total(sizes, items[..to]) + sizes.length(items[to]), items[to])
  {
    PlannedAtMostTotal(sizes, items, from, to);
    BuildStep(sizes, items, to, limit, assets);
  }

  /** Plans, encodes and accounts for one chunk; a chunk cut short ends the build with the next item. */
  method BuildChunk(sizes: Sizes, items: seq<Item>, i: nat, limit: nat, concurrency: nat,
                    encoded: seq<Asset>, totalBytes: nat)
    returns (r: Built, total: nat, next: nat)
    requires i < |items| && concurrency >= 1
    requires Build(sizes, items[..i], limit) == Assets(encoded) && totalBytes == Total(sizes, items[..i]) <= limit
    ensures r.TooManyBytes? ==> r == Build(sizes, items, limit)
    ensures r.Assets? ==> i < next <= |items| && r == Build(sizes, items[..next], limit)
    ensures r.Assets? ==> total == Total(sizes, items[..next]) <= limit
  {
    var fitting := PlanChunk(sizes, items, i, concurrency, limit - totalBytes);
    next := i + fitting;
    r, total := AccountChunk(sizes, items, i, next, limit, encoded, totalBytes);
    if r.Assets? {
      BuiltIffAllFit(sizes, items[..next], limit);
      if fitting < Min(concurrency, |items| - i) {
        ChunkExceeds(sizes, items, i, next, limit, r.assets);
        r := TooManyBytes(total + sizes.length(items[next]), items[next]);
      }
    }
  }

  /** Chunks of concurrently encoded items: the same catalog, or the same excess, as one by one. */
  method BuildInChunks(sizes: Sizes, items: seq<Item>, limit: nat, concurrency: nat) returns (r: Built)
    requires concurrency >= 1
    ensures r == Build(sizes, items, limit)
  {
    var i := 0;
    r := Assets([]);
    var totalBytes := 0;
    while i < |items|
      invariant i <= |items| && r.Assets?
      invariant r == Build(sizes, items[..i], limit) && totalBytes == Total(sizes, items[..i]) <= limit
      decreases |items| - i
    {
      r, totalBytes, i := BuildChunk(sizes, items, i, limit, concurrency, r.assets, totalBytes);
      if r.TooManyBytes? {
        return;
      }
    }
    assert items[..|items|] == items;
  }

  method CreateAssetCatalog(sizes: Sizes, items: seq<Item>, limit: nat, concurrency: nat) returns (r: Built)
    requires concurrency >= 1
    ensures r == Build(sizes, items, limit)
    ensures r.Assets? <==> Total(sizes, items) <= limit
    ensures r.Assets? ==> r.assets == Encoded(sizes, items)
  {
    BuiltIffAllFit(sizes, items, limit);
    if concurrency > 1 && |items| > 1 {
      r := BuildInChunks(sizes, items, limit, concurrency);
    } else {
      r := BuildSequentially(sizes, items, limit);
    }
  }
}
