/** boost::property_tree::ptree: a node holds data and an ordered multi-map of keyed children. */
module PropertyTree {

  datatype Tree = Tree(data: string, children: seq<Child>)

  datatype Child = Child(key: string, tree: Tree)

  const EMPTY_TREE := Tree("", [])

  function PushBack(t: Tree, entry: Child): Tree {
    t.(children := t.children + [entry])
  }

  /** The number of children with the given key, `ptree::count`. */
  function Count(children: seq<Child>, key: string): nat {
    if children == [] then 0
    else (if children[0].key == key then 1 else 0) + Count(children[1..], key)
  }

  /** `ptree::put_child` for a path of one segment: replace the first child with that key,
      or append a new one. */
  function PutChild(t: Tree, key: string, child: Tree): Tree {
    t.(children := PutIn(t.children, key, child))
  }

  function PutIn(children: seq<Child>, key: string, child: Tree): seq<Child> {
    if children == [] then [Child(key, child)]
    else if children[0].key == key then [Child(key, child)] + children[1..]
    else [children[0]] + PutIn(children[1..], key, child)
  }

  /** `count(key) == size()` is the test the JSON writer makes; this is what it means. */
  lemma {:induction false} CountIsSize(children: seq<Child>, key: string)
    ensures Count(children, key) <= |children|
    ensures Count(children, key) == |children| <==> forall c <- children :: c.key == key
  {
    if children != [] {
      CountIsSize(children[1..], key);
      assert children == [children[0]] + children[1..];
    }
  }
}
