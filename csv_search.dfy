/** `isCsvFile` and `hasCsvWithin`: whether a directory holds, at any depth,
    a CSV file that the listing would let the user reach. */
module CsvSearch {
  import opened Strings
  import opened FsTree

  /** `name.toLowerCase().endsWith(".csv")`: the last four characters are
      `.csv` in any mix of ASCII case. */
  function IsCsvFile(name: string): (r: bool)
    ensures r <==> |name| >= 4 && name[|name| - 4] == '.'
                   && (name[|name| - 3] == 'c' || name[|name| - 3] == 'C')
                   && (name[|name| - 2] == 's' || name[|name| - 2] == 'S')
                   && (name[|name| - 1] == 'v' || name[|name| - 1] == 'V')
  {
    var lower := ToLower(name);
    var r := EndsWith(lower, ".csv");
    assert r ==> lower[|name| - 4..] == ".csv";
    assert r ==> lower[|name| - 4] == '.' && lower[|name| - 3] == 'c'
                 && lower[|name| - 2] == 's' && lower[|name| - 1] == 'v';
    r
  }

  /** A visible entry that is a CSV file. */
  predicate IsCsvEntry(d: Dirent) {
    !IsHidden(d) && IsFile(d) && IsCsvFile(d.name)
  }

  /** The recursive specification: a readable directory with a visible
      entry that is a CSV file or a directory that contains one.
      Unreadable directories, files and other nodes contain nothing. */
  predicate ContainsCsv(n: Node)
    decreases n, 1
  {
    match n
    case Dir(cs) => exists i :: 0 <= i < |cs| && LeadsToCsv(cs[i])
    case _ => false
  }

  /** An entry through which the search finds a CSV file. */
  predicate LeadsToCsv(d: Dirent)
    decreases d, 0
  {
    IsCsvEntry(d) || (!IsHidden(d) && ContainsCsv(d.node))
  }

  /** Some queued subtree contains a CSV file. */
  ghost predicate AnyContainsCsv(queue: seq<Node>) {
    exists k :: 0 <= k < |queue| && ContainsCsv(queue[k])
  }

  lemma PushKeepsSearch(queue: seq<Node>, n: Node)
    ensures AnyContainsCsv(queue + [n]) <==> AnyContainsCsv(queue) || ContainsCsv(n)
  {
    if ContainsCsv(n) {
      assert (queue + [n])[|queue|] == n;
    }
    if AnyContainsCsv(queue) {
      var k :| 0 <= k < |queue| && ContainsCsv(queue[k]);
      assert (queue + [n])[k] == queue[k];
    }
  }

  function QueueSize(queue: seq<Node>): nat {
    if queue == [] then 0 else Size(queue[0]) + QueueSize(queue[1..])
  }

  lemma {:induction false} QueueSizePush(queue: seq<Node>, n: Node)
    ensures QueueSize(queue + [n]) == QueueSize(queue) + Size(n)
    decreases |queue|
  {
    if queue == [] {
      assert [] + [n] == [n];
    } else {
      assert (queue + [n])[1..] == queue[1..] + [n];
      QueueSizePush(queue[1..], n);
    }
  }

  lemma {:induction false} ChildrenSizeSplit(cs: seq<Dirent>, j: nat)
    requires j < |cs|
    ensures ChildrenSize(cs[j..]) == Size(cs[j].node) + ChildrenSize(cs[j + 1..])
  {
    assert cs[j..][1..] == cs[j + 1..];
  }

  /** `hasCsvWithin`: breadth-first search with an explicit queue; the first
      visible CSV file ends it, an unreadable directory is skipped. */
  method HasCsvWithin(directory: Node) returns (found: bool)
    ensures found <==> ContainsCsv(directory)
  {
    var queue := [directory];
    while queue != []
      invariant ContainsCsv(directory) <==> AnyContainsCsv(queue)
      decreases QueueSize(queue)
    {
      var current := queue[0];
      ghost var before := QueueSize(queue);
      queue := queue[1..];
      assert before == Size(current) + QueueSize(queue);
      if !current.Dir? {
        // readdir throws: not a readable directory, so nothing lies below it
        continue;
      }
      var dirents := current.children;
      ghost var rest := QueueSize(queue);
      for j := 0 to |dirents|
        invariant ContainsCsv(directory)
                  <==> AnyContainsCsv(queue) || exists i :: j <= i < |dirents| && LeadsToCsv(dirents[i])
        invariant QueueSize(queue) + ChildrenSize(dirents[j..]) <= rest + ChildrenSize(dirents)
      {
        var entry := dirents[j];
        ChildrenSizeSplit(dirents, j);
        if IsHidden(entry) {
          assert !LeadsToCsv(entry);
          continue;
        }
        if IsFile(entry) && IsCsvFile(entry.name) {
          assert LeadsToCsv(entry);
          return true;
        }
        assert LeadsToCsv(entry) <==> ContainsCsv(entry.node);
        if IsDirectory(entry) {
          QueueSizePush(queue, entry.node);
          PushKeepsSearch(queue, entry.node);
          queue := queue + [entry.node];
        } else {
          assert !ContainsCsv(entry.node);
        }
      }
      assert dirents[|dirents|..] == [];
    }
    return false;
  }

  /** An index path from `n` to a visible CSV file: each step picks a
      visible child, every step but the last enters a readable directory. */
  ghost predicate CsvAt(n: Node, path: seq<nat>)
    decreases path
  {
    && n.Dir?
    && |path| >= 1
    && path[0] < |n.children|
    && var d := n.children[path[0]];
       !IsHidden(d) && (if |path| == 1 then IsCsvEntry(d) else CsvAt(d.node, path[1..]))
  }

  /** The recursive specification agrees with reachability: a subtree
      contains a CSV file exactly when some path of visible readable
      directories leads to a visible CSV file. */
  lemma {:induction false} ContainsCsvIffReachable(n: Node)
    ensures ContainsCsv(n) <==> exists path :: CsvAt(n, path)
  {
    if ContainsCsv(n) {
      ContainsCsvIsReachable(n);
    } else {
      forall path | CsvAt(n, path) ensures false {
        ReachableContainsCsv(n, path);
      }
    }
  }

  lemma {:induction false} ContainsCsvIsReachable(n: Node)
    requires ContainsCsv(n)
    ensures exists path :: CsvAt(n, path)
    decreases n
  {
    var cs := n.children;
    var i: nat :| i < |cs| && LeadsToCsv(cs[i]);
    var d := cs[i];
    if IsCsvEntry(d) {
      var path: seq<nat> := [i];
      assert CsvAt(n, path);
    } else {
      ContainsCsvIsReachable(d.node);
      var p :| CsvAt(d.node, p);
      var path := [i] + p;
      assert path[0] == i && path[1..] == p;
      assert CsvAt(n, path);
    }
  }

  lemma {:induction false} ReachableContainsCsv(n: Node, path: seq<nat>)
    requires CsvAt(n, path)
    ensures ContainsCsv(n)
    decreases path
  {
    var d := n.children[path[0]];
    if |path| > 1 {
      ReachableContainsCsv(d.node, path[1..]);
    }
    assert LeadsToCsv(d);
  }

  /** Hidden entries and everything beneath them are never searched:
      swapping the subtree under a hidden entry changes nothing. */
  lemma HiddenIgnored(cs: seq<Dirent>, i: nat, other: Node)
    requires i < |cs| && IsHidden(cs[i])
    ensures ContainsCsv(Dir(cs)) <==> ContainsCsv(Dir(cs[i := Dirent(cs[i].name, other)]))
  {
    var cs' := cs[i := Dirent(cs[i].name, other)];
    assert forall j :: 0 <= j < |cs| ==> (LeadsToCsv(cs[j]) <==> LeadsToCsv(cs'[j]));
  }

  /** An unreadable directory counts as empty, and the other branches are
      searched as if it were not there. */
  lemma UnreadableIsEmpty(cs: seq<Dirent>, i: nat)
    requires i < |cs| && cs[i].node.Unreadable?
    ensures ContainsCsv(Dir(cs)) <==> exists j :: 0 <= j < |cs| && j != i && LeadsToCsv(cs[j])
  {
    assert !LeadsToCsv(cs[i]);
  }

  /** Entries that are neither files nor directories are never followed. */
  lemma OtherIgnored(d: Dirent)
    requires d.node.Other?
    ensures !LeadsToCsv(d)
  {
  }
}
