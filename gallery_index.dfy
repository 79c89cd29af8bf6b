/**
 * `listToGroups` of the gallery index page: each artwork path is split on
 * "/", its "." segments dropped, and it is filed as a child of the group
 * named by its first segment. Groups come out in the order their roots first
 * appear; children keep the order of the input.
 */
module GalleryIndex {
  import opened Wrappers
  import opened Paths

  datatype Item = Item(name: string, url: string)
  /** `name` is `undefined` (`None`) for a path with no segment left after dropping ".". */
  datatype Group = Group(name: Option<string>, children: seq<Item>)

  predicate IsDot(p: string) {
    p == "."
  }

  /** The segments of a path with every "." removed. */
  function Segments(path: string): seq<string> {
    Remove(Split(path), IsDot)
  }

  /** `root` of `const [root, ...rest]`: `undefined` when no segment is left. */
  function Root(path: string): Option<string> {
    var segs := Segments(path);
    if |segs| == 0 then None else Some(segs[0])
  }

  /** `rest` of `const [root, ...rest]`. */
  function Rest(path: string): seq<string> {
    var segs := Segments(path);
    if |segs| == 0 then [] else segs[1..]
  }

  /** The property key `acc[root]` uses, which is also what the url template prints. */
  function Key(path: string): string {
    match Root(path)
    case None => "undefined"
    case Some(r) => r
  }

  /** The child a path contributes. */
  function ItemOf(path: string): Item {
    Item(Join(Rest(path)), "/a/" + Key(path) + "/" + Join(Rest(path)))
  }

  /**
   * A path made of at least two segments, none of them ".", is listed under its
   * first segment, with the rest as its name and `/a/{path}` as its url.
   */
  lemma PlainPathItem(path: string)
    requires |Split(path)| >= 2
    requires forall i :: 0 <= i < |Split(path)| ==> Split(path)[i] != "."
    ensures Root(path) == Some(Split(path)[0])
    ensures Split(Join(Rest(path))) == Split(path)[1..]
    ensures ItemOf(path).url == "/a/" + path
  {
    var parts := Split(path);
    NoDotsKept(parts);
    assert Segments(path) == parts;
    var rest := Join(parts[1..]);
    JoinSplit(path);
    assert path == parts[0] + [Sep] + rest;
    UrlOfJoin(parts[0], rest);
    SplitJoin(parts[1..]);
  }

  /** The url template over a root and a rest is `/a/` before the joined path. */
  lemma UrlOfJoin(root: string, rest: string)
    ensures "/a/" + root + "/" + rest == "/a/" + (root + [Sep] + rest)
  {
  }

  /** Removing "." from pieces that hold none changes nothing. */
  lemma {:induction false} NoDotsKept(parts: seq<string>)
    requires forall i :: 0 <= i < |parts| ==> parts[i] != "."
    ensures Remove(parts, IsDot) == parts
  {
    if |parts| > 0 {
      NoDotsKept(parts[1..]);
      assert [parts[0]] + parts[1..] == parts;
    }
  }

  /** The children of key `k`: one per path with that key, in input order. */
  function ItemsFor(list: seq<string>, k: string): seq<Item> {
    if |list| == 0 then []
    else
      var last := list[|list| - 1];
      ItemsFor(list[..|list| - 1], k) + (if Key(last) == k then [ItemOf(last)] else [])
  }

  /** The keys in the order they first appear. */
  function Keys(list: seq<string>): seq<string> {
    if |list| == 0 then []
    else
      var prior := Keys(list[..|list| - 1]);
      var k := Key(list[|list| - 1]);
      if k in prior then prior else prior + [k]
  }

  /** The group name: the root of the first path filed under `k`. */
  function NameFor(list: seq<string>, k: string): Option<string> {
    if |list| == 0 then None
    else
      var prior := list[..|list| - 1];
      if k in Keys(prior) then NameFor(prior, k)
      else if Key(list[|list| - 1]) == k then Root(list[|list| - 1])
      else None
  }

  /** What `listToGroups(list)` returns. */
  function Groups(list: seq<string>): seq<Group> {
    var keys := Keys(list);
    seq(|keys|, i requires 0 <= i < |keys| => Group(NameFor(list, keys[i]), ItemsFor(list, keys[i])))
  }

  /** `acc` and the order of its keys after the `reduce` has filed the paths of `list`. */
  ghost predicate Filed(acc: map<string, Group>, order: seq<string>, list: seq<string>) {
    && order == Keys(list)
    && (forall k :: k in acc <==> k in order)
    && forall k :: k in acc ==> acc[k] == Group(NameFor(list, k), ItemsFor(list, k))
  }

  /**
   * `listToGroups`: the `reduce` fills a keyed accumulator, remembering the
   * order in which keys were created, and `Object.values` reads it back.
   */
  method ListToGroups(list: seq<string>) returns (groups: seq<Group>)
    ensures groups == Groups(list)
  {
    var acc: map<string, Group> := map[];
    var order: seq<string> := [];
    var n := 0;
    while n < |list|
      invariant 0 <= n <= |list|
      invariant Filed(acc, order, list[..n])
    {
      assert list[..n + 1] == list[..n] + [list[n]];
      acc, order := FilePath(acc, order, list[..n], list[n]);
      n := n + 1;
    }
    assert list[..n] == list;
    FiledValues(acc, order, list);
    groups := Values(acc, order);
  }

  /** `Object.values(acc)`, the keys taken in creation order. */
  function Values(acc: map<string, Group>, order: seq<string>): seq<Group>
    requires forall k :: k in order ==> k in acc
  {
    seq(|order|, i requires 0 <= i < |order| => acc[order[i]])
  }

  /** Reading back a filled accumulator gives the groups of the paths. */
  lemma FiledValues(acc: map<string, Group>, order: seq<string>, list: seq<string>)
    requires Filed(acc, order, list)
    ensures forall k :: k in order ==> k in acc
    ensures Values(acc, order) == Groups(list)
  {
    var keys := Keys(list);
    assert |Values(acc, order)| == |Groups(list)|;
    forall i | 0 <= i < |order|
      ensures Values(acc, order)[i] == Groups(list)[i]
    {
      assert order[i] in acc;
    }
  }

  /** The `reduce` callback: `path` joins the group of its key, which is created first if missing. */
  method FilePath(acc: map<string, Group>, order: seq<string>, ghost prior: seq<string>, path: string)
    returns (acc': map<string, Group>, order': seq<string>)
    requires Filed(acc, order, prior)
    ensures Filed(acc', order', prior + [path])
  {
    var key := Key(path);
    acc', order' := acc, order;
    if key !in acc' {
      acc' := acc'[key := Group(Root(path), [])];
      order' := order' + [key];
    }
    acc' := acc'[key := Group(acc'[key].name, acc'[key].children + [ItemOf(path)])];
    if key in acc {
      FileExisting(acc, order, prior, path);
    } else {
      FileNew(acc, order, prior, path);
    }
  }

  /** A path whose key has a group joins the end of that group's children. */
  lemma FileExisting(acc: map<string, Group>, order: seq<string>, prior: seq<string>, path: string)
    requires Filed(acc, order, prior) && Key(path) in acc
    ensures Filed(acc[Key(path) := Group(acc[Key(path)].name, acc[Key(path)].children + [ItemOf(path)])],
                  order, prior + [path])
  {
    KeysAppend(prior, path);
    var acc' := acc[Key(path) := Group(acc[Key(path)].name, acc[Key(path)].children + [ItemOf(path)])];
    forall k | k in acc'
      ensures acc'[k] == Group(NameFor(prior + [path], k), ItemsFor(prior + [path], k))
    {
      ItemsForOther(prior, path, k);
    }
  }

  /**
   * A path with a new key opens a group named after its root, with no children,
   * and then joins it: the group holds just its item.
   */
  lemma FileNew(acc: map<string, Group>, order: seq<string>, prior: seq<string>, path: string)
    requires Filed(acc, order, prior) && Key(path) !in acc
    ensures var created := acc[Key(path) := Group(Root(path), [])];
      Filed(created[Key(path) := Group(created[Key(path)].name, created[Key(path)].children + [ItemOf(path)])],
            order + [Key(path)], prior + [path])
  {
    OpenThenJoin(acc, Key(path), Root(path), ItemOf(path));
    FileNewGroup(acc, order, prior, path);
  }

  /** Opening an empty group and then joining it is opening it with the one item. */
  lemma OpenThenJoin(acc: map<string, Group>, key: string, name: Option<string>, item: Item)
    ensures var created := acc[key := Group(name, [])];
      created[key := Group(created[key].name, created[key].children + [item])] == acc[key := Group(name, [item])]
  {
    assert [] + [item] == [item];
  }

  /** The accumulator after a new key: the old groups, plus the new one holding just `path`'s item. */
  lemma FileNewGroup(acc: map<string, Group>, order: seq<string>, prior: seq<string>, path: string)
    requires Filed(acc, order, prior) && Key(path) !in acc
    ensures Filed(acc[Key(path) := Group(Root(path), [ItemOf(path)])], order + [Key(path)], prior + [path])
  {
    KeysAppend(prior, path);
    var acc' := acc[Key(path) := Group(Root(path), [ItemOf(path)])];
    forall k | k in acc'
      ensures acc'[k] == Group(NameFor(prior + [path], k), ItemsFor(prior + [path], k))
    {
      ItemsForOther(prior, path, k);
    }
  }

  /** Appending a path adds its key at the end unless it is already there. */
  lemma KeysAppend(list: seq<string>, path: string)
    ensures Keys(list + [path]) == if Key(path) in Keys(list) then Keys(list) else Keys(list) + [Key(path)]
  {
    assert (list + [path])[..|list|] == list;
  }

  /** Appending a path adds its item under its own key and nowhere else. */
  lemma ItemsForOther(list: seq<string>, path: string, k: string)
    ensures ItemsFor(list + [path], k)
         == ItemsFor(list, k) + (if Key(path) == k then [ItemOf(path)] else [])
    ensures NameFor(list + [path], k)
         == if k in Keys(list) then NameFor(list, k) else if Key(path) == k then Root(path) else None
    ensures k !in Keys(list) ==> ItemsFor(list, k) == [] && NameFor(list, k) == None
  {
    assert (list + [path])[..|list|] == list;
    if k !in Keys(list) {
      AbsentKeyEmpty(list, k);
    }
  }

  /** A key that never appears has no children and no name. */
  lemma {:induction false} AbsentKeyEmpty(list: seq<string>, k: string)
    requires k !in Keys(list)
    ensures ItemsFor(list, k) == [] && NameFor(list, k) == None
  {
    if |list| > 0 {
      var prior := list[..|list| - 1];
      assert Keys(prior) <= Keys(list);
      AbsentKeyEmpty(prior, k);
      assert Key(list[|list| - 1]) in Keys(list);
    }
  }

  /** The group keys are exactly the keys of the paths, each once. */
  lemma KeysExact(list: seq<string>)
    ensures forall i, j :: 0 <= i < j < |Keys(list)| ==> Keys(list)[i] != Keys(list)[j]
    ensures forall k :: k in Keys(list) <==> exists p :: p in list && Key(p) == k
  {
    KeysDistinct(list);
    forall k
      ensures k in Keys(list) <==> exists p :: p in list && Key(p) == k
    {
      KeysMember(list, k);
    }
  }

  lemma {:induction false} KeysDistinct(list: seq<string>)
    ensures forall i, j :: 0 <= i < j < |Keys(list)| ==> Keys(list)[i] != Keys(list)[j]
  {
    if |list| > 0 {
      var prior := list[..|list| - 1];
      KeysDistinct(prior);
      assert list == prior + [list[|list| - 1]];
      KeysAppend(prior, list[|list| - 1]);
    }
  }

  lemma {:induction false} KeysMember(list: seq<string>, k: string)
    ensures k in Keys(list) <==> exists p :: p in list && Key(p) == k
  {
    if |list| > 0 {
      var prior := list[..|list| - 1];
      var last := list[|list| - 1];
      KeysMember(prior, k);
      assert list == prior + [last];
      KeysMemberStep(prior, last, k);
    }
  }

  /** Appending one path keeps the listed keys exactly the keys of the paths. */
  lemma KeysMemberStep(prior: seq<string>, last: string, k: string)
    requires k in Keys(prior) <==> exists p :: p in prior && Key(p) == k
    ensures k in Keys(prior + [last]) <==> exists p :: p in prior + [last] && Key(p) == k
  {
    KeysAppend(prior, last);
    var list := prior + [last];
    if exists p :: p in list && Key(p) == k {
      var p :| p in list && Key(p) == k;
      assert p in prior || p == last;
    }
    if k in Keys(prior) {
      var p :| p in prior && Key(p) == k;
      assert p in list;
    } else if k == Key(last) {
      assert last in list;
    }
  }

  /** The children of a key are exactly the items of the paths filed under it. */
  lemma {:induction false} ItemsForExact(list: seq<string>, k: string)
    ensures forall it :: it in ItemsFor(list, k) ==> exists p :: p in list && Key(p) == k && it == ItemOf(p)
    ensures forall p :: p in list && Key(p) == k ==> ItemOf(p) in ItemsFor(list, k)
  {
    if |list| > 0 {
      var prior := list[..|list| - 1];
      var last := list[|list| - 1];
      assert list == prior + [last];
      ItemsForExact(prior, k);
      forall it | it in ItemsFor(list, k)
        ensures exists p :: p in list && Key(p) == k && it == ItemOf(p)
      {
        if it in ItemsFor(prior, k) {
          var p :| p in prior && Key(p) == k && it == ItemOf(p);
          assert p in list;
        } else {
          assert last in list;
        }
      }
      forall p | p in list && Key(p) == k
        ensures ItemOf(p) in ItemsFor(list, k)
      {
        if p != last {
          assert p in prior;
        }
      }
    }
  }

  /** The number of children across the groups with keys `keys`. */
  function ChildCount(list: seq<string>, keys: seq<string>): nat {
    if |keys| == 0 then 0 else |ItemsFor(list, keys[0])| + ChildCount(list, keys[1..])
  }

  /** Appending a path adds one child to the total exactly when its key is counted. */
  lemma {:induction false} ChildCountStep(list: seq<string>, path: string, keys: seq<string>)
    requires forall i, j :: 0 <= i < j < |keys| ==> keys[i] != keys[j]
    ensures ChildCount(list + [path], keys) == ChildCount(list, keys) + (if Key(path) in keys then 1 else 0)
  {
    if |keys| > 0 {
      ItemsForOther(list, path, keys[0]);
      ChildCountStep(list, path, keys[1..]);
      if Key(path) == keys[0] {
        assert Key(path) !in keys[1..];
      } else {
        assert Key(path) in keys <==> Key(path) in keys[1..];
      }
    }
  }

  /** Every path contributes exactly one child: the groups hold as many children as there are paths. */
  lemma {:induction false} TotalChildren(list: seq<string>)
    ensures ChildCount(list, Keys(list)) == |list|
  {
    if |list| > 0 {
      var prior := list[..|list| - 1];
      var last := list[|list| - 1];
      assert list == prior + [last];
      TotalChildren(prior);
      KeysExact(list);
      KeysExact(prior);
      ChildCountStep(prior, last, Keys(list));
      if Key(last) in Keys(prior) {
      } else {
        AbsentKeyEmpty(prior, Key(last));
        ChildCountAppend(prior, Keys(prior), Key(last));
      }
    }
  }

  /** Counting one more key adds its children. */
  lemma {:induction false} ChildCountAppend(list: seq<string>, keys: seq<string>, k: string)
    ensures ChildCount(list, keys + [k]) == ChildCount(list, keys) + |ItemsFor(list, k)|
  {
    if |keys| > 0 {
      assert (keys + [k])[1..] == keys[1..] + [k];
      ChildCountAppend(list, keys[1..], k);
    } else {
      assert ([k])[1..] == [];
    }
  }
}
