/**
 * The Azure DevOps hierarchy delete: the child ids of a work item are read
 * from its hierarchy-forward relations, and the walker deletes every child
 * subtree before the work item itself.
 *
 * The two REST calls are the parameters of the model: `fetch` is the GET of a
 * work item with its relations and `delete` the DELETE of a work item, each
 * giving back what the walker looks at.
 */
module DeleteDescendants {
  import opened Wrappers
  import opened PyStr

  /** The link type of a parent-to-child relation. */
  const HierarchyForward := "System.LinkTypes.Hierarchy-Forward"

  /** One entry of a work item's `relations` list. */
  datatype Relation = Relation(rel: string, url: string)

  /** A GET of one work item: the status code and, when the body has it, the `relations` list. */
  datatype Response = Response(status: int, relations: Option<seq<Relation>>)

  /** The two REST calls: the GET of a work item and the status code of its DELETE. */
  datatype Api = Api(fetch: string -> Response, delete: string -> int)

  /** One DELETE issued by the walker, and whether it answered 204. */
  datatype Attempt = Attempt(id: string, deleted: bool)

  // ---------------------------------------------------------------- children

  /** The ids named by the hierarchy-forward relations of a list, in list order. */
  function ChildIds(rels: seq<Relation>): seq<string> {
    if rels == [] then []
    else
      var last := rels[|rels| - 1];
      ChildIds(rels[..|rels| - 1]) + if last.rel == HierarchyForward then [LastPiece(last.url, '/')] else []
  }

  /** There is at most one child per relation. */
  lemma {:induction false} ChildIdsLength(rels: seq<Relation>)
    ensures |ChildIds(rels)| <= |rels|
  {
    if rels != [] {
      ChildIdsLength(rels[..|rels| - 1]);
    }
  }

  /** Every child id comes from a hierarchy-forward relation: here is its index. */
  lemma {:induction false} ChildIdSource(rels: seq<Relation>, t: string) returns (j: nat)
    requires t in ChildIds(rels)
    ensures j < |rels| && rels[j].rel == HierarchyForward && LastPiece(rels[j].url, '/') == t
  {
    var init := rels[..|rels| - 1];
    if t in ChildIds(init) {
      j := ChildIdSource(init, t);
      assert init[j] == rels[j];
    } else {
      j := |rels| - 1;
    }
  }

  /** Every hierarchy-forward relation gives a child id. */
  lemma {:induction false} SourceChildId(rels: seq<Relation>, j: nat)
    requires j < |rels| && rels[j].rel == HierarchyForward
    ensures LastPiece(rels[j].url, '/') in ChildIds(rels)
  {
    var init := rels[..|rels| - 1];
    if j < |init| {
      assert init[j] == rels[j];
      SourceChildId(init, j);
    }
  }

  /**
   * An id is a child exactly when some hierarchy-forward relation's URL ends
   * in it after its last `/`; there is at most one child per relation.
   */
  lemma ChildIdsSpec(rels: seq<Relation>)
    ensures |ChildIds(rels)| <= |rels|
    ensures forall t :: t in ChildIds(rels) <==>
      exists j :: 0 <= j < |rels| && rels[j].rel == HierarchyForward && LastPiece(rels[j].url, '/') == t
  {
    ChildIdsLength(rels);
    forall t ensures t in ChildIds(rels) <==>
      exists j :: 0 <= j < |rels| && rels[j].rel == HierarchyForward && LastPiece(rels[j].url, '/') == t
    {
      if t in ChildIds(rels) {
        var j := ChildIdSource(rels, t);
      }
      if exists j :: 0 <= j < |rels| && rels[j].rel == HierarchyForward && LastPiece(rels[j].url, '/') == t {
        var j :| 0 <= j < |rels| && rels[j].rel == HierarchyForward && LastPiece(rels[j].url, '/') == t;
        SourceChildId(rels, j);
      }
    }
  }

  /** Every child id is a tail of its relation's URL that holds no `/`. */
  lemma {:induction false} ChildIdsAreTails(rels: seq<Relation>)
    ensures forall t :: t in ChildIds(rels) ==>
      '/' !in t && exists j :: 0 <= j < |rels| && |t| <= |rels[j].url| && rels[j].url[|rels[j].url| - |t|..] == t
  {
    forall t | t in ChildIds(rels)
      ensures '/' !in t && exists j :: 0 <= j < |rels| && |t| <= |rels[j].url| && rels[j].url[|rels[j].url| - |t|..] == t
    {
      var j := ChildIdSource(rels, t);
      LastPieceSuffix(rels[j].url, '/');
    }
  }

  /** `get_descendants`: the children of a work item as the walker sees them. */
  function Children(api: Api, id: string): seq<string> {
    var response := api.fetch(id);
    if response.status != 200 then []
    else
      match response.relations
      case None => []
      case Some(rels) => ChildIds(rels)
  }

  /**
   * A failed GET or a body without `relations` makes the work item a leaf;
   * otherwise its children are those of its relation list.
   */
  lemma ChildrenSpec(api: Api, id: string)
    ensures api.fetch(id).status != 200 ==> Children(api, id) == []
    ensures api.fetch(id).relations.None? ==> Children(api, id) == []
    ensures forall t :: t in Children(api, id) <==>
      && api.fetch(id).status == 200
      && api.fetch(id).relations.Some?
      && exists j :: && 0 <= j < |api.fetch(id).relations.value|
                     && api.fetch(id).relations.value[j].rel == HierarchyForward
                     && LastPiece(api.fetch(id).relations.value[j].url, '/') == t
  {
    if api.fetch(id).relations.Some? {
      ChildIdsSpec(api.fetch(id).relations.value);
    }
  }

  /** `get_descendants` as a loop that appends one id per hierarchy-forward relation. */
  method GetDescendants(api: Api, id: string) returns (ids: seq<string>)
    ensures ids == Children(api, id)
  {
    var response := api.fetch(id);
    if response.status != 200 {
      return [];
    }
    ids := [];
    if response.relations.Some? {
      var rels := response.relations.value;
      for k := 0 to |rels|
        invariant ids == ChildIds(rels[..k])
      {
        if rels[k].rel == HierarchyForward {
          ids := ids + [LastPiece(rels[k].url, '/')];
        }
        assert rels[..k + 1][..k] == rels[..k];
      }
      assert rels[..|rels|] == rels;
    }
  }

  // ---------------------------------------------------------------- post-order

  /**
   * The hierarchy is finite and acyclic: every child ranks strictly below its
   * parent. The walker keeps no visited set, so it stops only under this.
   */
  ghost predicate Ranked(api: Api, rank: string -> nat) {
    forall id, c :: c in Children(api, id) ==> rank(c) < rank(id)
  }

  /** The ids the walker deletes from `id`, in order: every child subtree, then `id`. */
  ghost function DeleteOrder(api: Api, rank: string -> nat, id: string): seq<string>
    requires Ranked(api, rank)
    decreases rank(id), |Children(api, id)| + 1
  {
    DeleteSeq(api, rank, Children(api, id), id) + [id]
  }

  /** The deletes of the subtrees of `ids`, children of `parent`, one subtree after another. */
  ghost function DeleteSeq(api: Api, rank: string -> nat, ids: seq<string>, parent: string): seq<string>
    requires Ranked(api, rank)
    requires forall x :: x in ids ==> rank(x) < rank(parent)
    decreases rank(parent), |ids|
  {
    if ids == [] then []
    else DeleteSeq(api, rank, ids[..|ids| - 1], parent) + DeleteOrder(api, rank, ids[|ids| - 1])
  }

  /** The ids of the attempts of a log. */
  function Ids(log: seq<Attempt>): (r: seq<string>)
    ensures |r| == |log| && forall j :: 0 <= j < |log| ==> r[j] == log[j].id
  {
    seq(|log|, j requires 0 <= j < |log| => log[j].id)
  }

  /** `delete_work_item`: one DELETE, logged as a success exactly when it answers 204. */
  method DeleteWorkItem(api: Api, id: string) returns (attempt: Attempt)
    ensures attempt.id == id
    ensures attempt.deleted <==> api.delete(id) == 204
  {
    var status := api.delete(id);
    attempt := Attempt(id, status == 204);
  }

  /**
   * `delete_hierarchy_recursive`: the DELETEs it issues follow the post-order
   * above, and each is logged by its own status; a failed DELETE does not stop
   * the walk.
   */
  method DeleteHierarchyRecursive(api: Api, ghost rank: string -> nat, id: string) returns (log: seq<Attempt>)
    requires Ranked(api, rank)
    ensures Ids(log) == DeleteOrder(api, rank, id)
    ensures forall j :: 0 <= j < |log| ==> (log[j].deleted <==> api.delete(log[j].id) == 204)
    decreases rank(id)
  {
    var children := GetDescendants(api, id);
    log := [];
    for k := 0 to |children|
      invariant Ids(log) == DeleteSeq(api, rank, children[..k], id)
      invariant forall j :: 0 <= j < |log| ==> (log[j].deleted <==> api.delete(log[j].id) == 204)
    {
      assert children[k] in Children(api, id);
      var sub := DeleteHierarchyRecursive(api, rank, children[k]);
      assert children[..k + 1][..k] == children[..k];
      IdsAppend(log, sub);
      log := log + sub;
    }
    assert children[..|children|] == children;
    var attempt := DeleteWorkItem(api, id);
    IdsAppend(log, [attempt]);
    log := log + [attempt];
  }

  lemma IdsAppend(a: seq<Attempt>, b: seq<Attempt>)
    ensures Ids(a + b) == Ids(a) + Ids(b)
  {
  }

  // ---------------------------------------------------------------- what the order deletes

  /** The root of the walk is the last work item deleted. */
  lemma RootLast(api: Api, rank: string -> nat, id: string)
    requires Ranked(api, rank)
    ensures |DeleteOrder(api, rank, id)| > 0 && DeleteOrder(api, rank, id)[|DeleteOrder(api, rank, id)| - 1] == id
  {
  }

  /** `p` follows child links from its first id to its last. */
  ghost predicate IsPath(api: Api, p: seq<string>) {
    && |p| > 0
    && forall i :: 0 <= i < |p| - 1 ==> p[i + 1] in Children(api, p[i])
  }

  /** What a child list's subtrees delete, some listed child's subtree deletes. */
  lemma {:induction false} SeqMemberIndex(api: Api, rank: string -> nat, ids: seq<string>, parent: string, x: string)
    returns (j: nat)
    requires Ranked(api, rank)
    requires forall y :: y in ids ==> rank(y) < rank(parent)
    requires x in DeleteSeq(api, rank, ids, parent)
    ensures j < |ids| && x in DeleteOrder(api, rank, ids[j])
    decreases |ids|
  {
    var init := ids[..|ids| - 1];
    if x in DeleteSeq(api, rank, init, parent) {
      j := SeqMemberIndex(api, rank, init, parent, x);
      assert init[j] == ids[j];
    } else {
      j := |ids| - 1;
    }
  }

  /** What a listed child's subtree deletes, the subtrees of the whole list delete. */
  lemma {:induction false} IndexSeqMember(api: Api, rank: string -> nat, ids: seq<string>, parent: string, j: nat, x: string)
    requires Ranked(api, rank)
    requires forall y :: y in ids ==> rank(y) < rank(parent)
    requires j < |ids| && x in DeleteOrder(api, rank, ids[j])
    ensures x in DeleteSeq(api, rank, ids, parent)
    decreases |ids|
  {
    var init := ids[..|ids| - 1];
    if j < |init| {
      assert init[j] == ids[j];
      IndexSeqMember(api, rank, init, parent, j, x);
    }
  }

  /** The subtrees of a child list delete exactly what the subtree of one of the children deletes. */
  lemma DeleteSeqMembers(api: Api, rank: string -> nat, ids: seq<string>, parent: string, x: string)
    requires Ranked(api, rank)
    requires forall y :: y in ids ==> rank(y) < rank(parent)
    ensures x in DeleteSeq(api, rank, ids, parent) <==>
      exists j :: 0 <= j < |ids| && x in DeleteOrder(api, rank, ids[j])
  {
    if x in DeleteSeq(api, rank, ids, parent) {
      var j := SeqMemberIndex(api, rank, ids, parent, x);
    }
    if exists j :: 0 <= j < |ids| && x in DeleteOrder(api, rank, ids[j]) {
      var j :| 0 <= j < |ids| && x in DeleteOrder(api, rank, ids[j]);
      IndexSeqMember(api, rank, ids, parent, j, x);
    }
  }

  /** A path preceded by a parent of its first id is a path. */
  lemma PathCons(api: Api, id: string, p: seq<string>)
    requires IsPath(api, p) && p[0] in Children(api, id)
    ensures IsPath(api, [id] + p)
  {
    var q := [id] + p;
    forall i | 0 <= i < |q| - 1 ensures q[i + 1] in Children(api, q[i]) {
      if i > 0 { assert q[i] == p[i - 1] && q[i + 1] == p[i]; }
    }
  }

  /** A path without its first id is a path. */
  lemma PathTail(api: Api, p: seq<string>)
    requires IsPath(api, p) && |p| > 1
    ensures IsPath(api, p[1..]) && p[1] in Children(api, p[0])
  {
    var rest := p[1..];
    forall i | 0 <= i < |rest| - 1 ensures rest[i + 1] in Children(api, rest[i]) {
      assert rest[i] == p[i + 1] && rest[i + 1] == p[i + 2];
    }
  }

  /** Whatever is deleted is reachable from the root by child links: here is the path. */
  lemma {:induction false} DeletedIsReachable(api: Api, rank: string -> nat, id: string, x: string)
    returns (p: seq<string>)
    requires Ranked(api, rank)
    requires x in DeleteOrder(api, rank, id)
    ensures IsPath(api, p) && p[0] == id && p[|p| - 1] == x
    decreases rank(id)
  {
    if x == id {
      p := [id];
    } else {
      var children := Children(api, id);
      assert x in DeleteSeq(api, rank, children, id);
      var j := SeqMemberIndex(api, rank, children, id, x);
      var tail := DeletedIsReachable(api, rank, children[j], x);
      PathCons(api, id, tail);
      p := [id] + tail;
    }
  }

  /** Whatever is reachable from the root by child links is deleted. */
  lemma {:induction false} ReachableIsDeleted(api: Api, rank: string -> nat, p: seq<string>)
    requires Ranked(api, rank)
    requires IsPath(api, p)
    ensures p[|p| - 1] in DeleteOrder(api, rank, p[0])
    decreases |p|
  {
    if |p| > 1 {
      PathTail(api, p);
      ReachableIsDeleted(api, rank, p[1..]);
      var children := Children(api, p[0]);
      var j :| 0 <= j < |children| && children[j] == p[1];
      IndexSeqMember(api, rank, children, p[0], j, p[|p| - 1]);
    }
  }

  /**
   * Exactly the work items reachable from the root by child links are
   * deleted: the root and all its descendants, and nothing else.
   */
  lemma DeletesReachable(api: Api, rank: string -> nat, id: string, x: string)
    requires Ranked(api, rank)
    ensures x in DeleteOrder(api, rank, id) <==> exists p :: IsPath(api, p) && p[0] == id && p[|p| - 1] == x
  {
    if x in DeleteOrder(api, rank, id) {
      var p := DeletedIsReachable(api, rank, id, x);
    }
    if exists p :: IsPath(api, p) && p[0] == id && p[|p| - 1] == x {
      var p :| IsPath(api, p) && p[0] == id && p[|p| - 1] == x;
      ReachableIsDeleted(api, rank, p);
    }
  }

  /**
   * Post-order as a block structure: wherever an id occurs in `o`, the ids
   * just before it, up to and including it, are exactly `block(id)`.
   */
  ghost predicate Blocked(o: seq<string>, block: string -> seq<string>) {
    forall i {:trigger block(o[i])} :: 0 <= i < |o| ==> |block(o[i])| <= i + 1 && o[i + 1 - |block(o[i])|..i + 1] == block(o[i])
  }

  /** The slice of a + b that lies inside a is a slice of a. */
  lemma SliceLeft(a: seq<string>, b: seq<string>, lo: nat, hi: nat)
    requires lo <= hi <= |a|
    ensures (a + b)[lo..hi] == a[lo..hi]
  {
    assert forall k :: 0 <= k < hi - lo ==> (a + b)[lo..hi][k] == a[lo..hi][k];
  }

  /** The slice of a + b that lies inside b is a slice of b. */
  lemma SliceRight(a: seq<string>, b: seq<string>, lo: nat, hi: nat)
    requires |a| <= lo <= hi <= |a| + |b|
    ensures (a + b)[lo..hi] == b[lo - |a|..hi - |a|]
  {
    assert forall k :: 0 <= k < hi - lo ==> (a + b)[lo..hi][k] == b[lo - |a|..hi - |a|][k];
  }

  lemma BlockedAppend(a: seq<string>, b: seq<string>, block: string -> seq<string>)
    requires Blocked(a, block) && Blocked(b, block)
    ensures Blocked(a + b, block)
  {
    var o := a + b;
    forall i | 0 <= i < |o| ensures |block(o[i])| <= i + 1 && o[i + 1 - |block(o[i])|..i + 1] == block(o[i]) {
      if i < |a| {
        BlockAtLeft(a, b, block(a[i]), i);
      } else {
        var k := i - |a|;
        var n := |block(b[k])|;
        assert o[i] == b[k];
        SliceRight(a, b, i + 1 - n, i + 1);
      }
    }
  }

  /** The subtree deletes of each id. */
  ghost function Subtree(api: Api, rank: string -> nat): string -> seq<string>
    requires Ranked(api, rank)
  {
    id => DeleteOrder(api, rank, id)
  }

  /** The block of an id inside `a` is still in place in `a + b`. */
  lemma BlockAtLeft(a: seq<string>, b: seq<string>, blk: seq<string>, i: nat)
    requires i < |a| && |blk| <= i + 1 && a[i + 1 - |blk|..i + 1] == blk
    ensures (a + b)[i] == a[i] && (a + b)[i + 1 - |blk|..i + 1] == blk
  {
    SliceLeft(a, b, i + 1 - |blk|, i + 1);
  }

  /** A blocked sequence followed by an id whose block is the whole result stays blocked. */
  lemma BlockedSnoc(s: seq<string>, id: string, block: string -> seq<string>)
    requires Blocked(s, block) && block(id) == s + [id]
    ensures Blocked(s + [id], block)
  {
    var o := s + [id];
    forall i | 0 <= i < |o| ensures |block(o[i])| <= i + 1 && o[i + 1 - |block(o[i])|..i + 1] == block(o[i]) {
      if i < |s| {
        BlockAtLeft(s, [id], block(s[i]), i);
      } else {
        assert o[i] == id && o[0..i + 1] == o;
      }
    }
  }

  lemma {:induction false} OrderBlocked(api: Api, rank: string -> nat, id: string)
    requires Ranked(api, rank)
    ensures Blocked(DeleteOrder(api, rank, id), Subtree(api, rank))
    decreases rank(id), |Children(api, id)| + 1
  {
    var s := DeleteSeq(api, rank, Children(api, id), id);
    SeqBlocked(api, rank, Children(api, id), id);
    assert Subtree(api, rank)(id) == s + [id];
    BlockedSnoc(s, id, Subtree(api, rank));
  }

  lemma {:induction false} SeqBlocked(api: Api, rank: string -> nat, ids: seq<string>, parent: string)
    requires Ranked(api, rank)
    requires forall x :: x in ids ==> rank(x) < rank(parent)
    ensures Blocked(DeleteSeq(api, rank, ids, parent), Subtree(api, rank))
    decreases rank(parent), |ids|
  {
    if ids != [] {
      SeqBlocked(api, rank, ids[..|ids| - 1], parent);
      OrderBlocked(api, rank, ids[|ids| - 1]);
      BlockedAppend(DeleteSeq(api, rank, ids[..|ids| - 1], parent), DeleteOrder(api, rank, ids[|ids| - 1]), Subtree(api, rank));
    }
  }

  /** Every child of a work item is deleted before it. */
  lemma ChildrenFirst(api: Api, rank: string -> nat, id: string)
    requires Ranked(api, rank)
    ensures var o := DeleteOrder(api, rank, id);
      forall i, c :: 0 <= i < |o| && c in Children(api, o[i]) ==> c in o[..i]
  {
    var o := DeleteOrder(api, rank, id);
    OrderBlocked(api, rank, id);
    forall i, c | 0 <= i < |o| && c in Children(api, o[i]) ensures c in o[..i] {
      var y := o[i];
      var b := DeleteOrder(api, rank, y);
      assert Subtree(api, rank)(y) == b;
      var children := Children(api, y);
      var s := DeleteSeq(api, rank, children, y);
      var j :| 0 <= j < |children| && children[j] == c;
      assert c in DeleteOrder(api, rank, children[j]);
      IndexSeqMember(api, rank, children, y, j, c);
      var k :| 0 <= k < |s| && s[k] == c;
      assert o[i + 1 - |b|..i + 1] == b;
      assert o[i + 1 - |b| + k] == b[k] == c;
    }
  }

  // ---------------------------------------------------------------- how often

  /** The number of child-link paths from `id` to `x`. */
  ghost function Paths(api: Api, rank: string -> nat, id: string, x: string): nat
    requires Ranked(api, rank)
    decreases rank(id), |Children(api, id)| + 1
  {
    (if id == x then 1 else 0) + PathsSeq(api, rank, Children(api, id), id, x)
  }

  /** The number of paths to `x` starting at one of `ids`, children of `parent`. */
  ghost function PathsSeq(api: Api, rank: string -> nat, ids: seq<string>, parent: string, x: string): nat
    requires Ranked(api, rank)
    requires forall y :: y in ids ==> rank(y) < rank(parent)
    decreases rank(parent), |ids|
  {
    if ids == [] then 0
    else PathsSeq(api, rank, ids[..|ids| - 1], parent, x) + Paths(api, rank, ids[|ids| - 1], x)
  }

  /**
   * With no visited set, a work item is deleted once per path that leads to
   * it: exactly once in a tree, more often when it is shared.
   */
  lemma {:induction false} DeleteCount(api: Api, rank: string -> nat, id: string, x: string)
    requires Ranked(api, rank)
    ensures multiset(DeleteOrder(api, rank, id))[x] == Paths(api, rank, id, x)
    decreases rank(id), |Children(api, id)| + 1
  {
    DeleteSeqCount(api, rank, Children(api, id), id, x);
  }

  lemma {:induction false} DeleteSeqCount(api: Api, rank: string -> nat, ids: seq<string>, parent: string, x: string)
    requires Ranked(api, rank)
    requires forall y :: y in ids ==> rank(y) < rank(parent)
    ensures multiset(DeleteSeq(api, rank, ids, parent))[x] == PathsSeq(api, rank, ids, parent, x)
    decreases rank(parent), |ids|
  {
    if ids != [] {
      DeleteSeqCount(api, rank, ids[..|ids| - 1], parent, x);
      DeleteCount(api, rank, ids[|ids| - 1], x);
    }
  }

  // ---------------------------------------------------------------- an example

  /** A hierarchy-forward relation to the work item `id`. */
  function Link(id: string): Relation {
    Relation(HierarchyForward, "workItems/" + id)
  }

  /** The hierarchy `root -> [a -> [a1], b]`; every other id answers 404. */
  function ExampleApi(): Api {
    Api(id => if id == "root" then Response(200, Some([Link("a"), Link("b")]))
              else if id == "a" then Response(200, Some([Link("a1")]))
              else if id == "a1" || id == "b" then Response(200, None)
              else Response(404, None),
        id => 204)
  }

  function ExampleRank(id: string): nat {
    if id == "root" then 2 else if id == "a" then 1 else 0
  }

  lemma LinkChild(id: string)
    requires '/' !in id
    ensures LastPiece(Link(id).url, '/') == id
  {
    LastPieceAfter("workItems", '/', id);
    assert "workItems/" + id == "workItems" + ['/'] + id;
  }

  lemma TwoLinks(x: string, y: string)
    requires '/' !in x && '/' !in y
    ensures ChildIds([Link(x)]) == [x]
    ensures ChildIds([Link(x), Link(y)]) == [x, y]
  {
    LinkChild(x);
    LinkChild(y);
    assert [Link(x), Link(y)][..1] == [Link(x)];
    assert [Link(x)][..0] == [];
  }

  /** The example hierarchy as the walker reads it. */
  lemma ExampleChildren()
    ensures Children(ExampleApi(), "root") == ["a", "b"]
    ensures Children(ExampleApi(), "a") == ["a1"]
    ensures Children(ExampleApi(), "a1") == [] && Children(ExampleApi(), "b") == []
  {
    TwoLinks("a", "b");
    TwoLinks("a1", "a1");
  }

  /** The example hierarchy is acyclic: a child ranks below its parent. */
  lemma ExampleRanked()
    ensures Ranked(ExampleApi(), ExampleRank)
  {
    var api := ExampleApi();
    ExampleChildren();
    forall id, c | c in Children(api, id) ensures ExampleRank(c) < ExampleRank(id) {
      assert id == "root" || id == "a";
      if id == "root" {
        assert c == "a" || c == "b";
      } else {
        assert c == "a1";
      }
    }
  }

  lemma LeafOrder(api: Api, rank: string -> nat, id: string)
    requires Ranked(api, rank)
    requires Children(api, id) == []
    ensures DeleteOrder(api, rank, id) == [id]
  {
    assert DeleteSeq(api, rank, [], id) == [];
  }

  lemma TwoChildOrder(api: Api, rank: string -> nat, id: string, x: string, y: string)
    requires Ranked(api, rank)
    requires Children(api, id) == [x, y]
    ensures DeleteOrder(api, rank, id) == DeleteOrder(api, rank, x) + DeleteOrder(api, rank, y) + [id]
  {
    assert x in Children(api, id) && y in Children(api, id);
    assert rank(x) < rank(id) && rank(y) < rank(id);
    assert [x, y][..1] == [x] && [x][..0] == [];
    assert DeleteSeq(api, rank, [x], id) == DeleteOrder(api, rank, x);
    assert DeleteSeq(api, rank, [x, y], id) == DeleteOrder(api, rank, x) + DeleteOrder(api, rank, y);
  }

  lemma OneChildOrder(api: Api, rank: string -> nat, id: string, x: string)
    requires Ranked(api, rank)
    requires Children(api, id) == [x]
    ensures DeleteOrder(api, rank, id) == DeleteOrder(api, rank, x) + [id]
  {
    assert x in Children(api, id) && rank(x) < rank(id);
    assert [x][..0] == [];
    assert DeleteSeq(api, rank, [x], id) == DeleteOrder(api, rank, x);
  }

  /** For `root -> [a -> [a1], b]` the deletes are a1, a, b, root. */
  lemma ExampleOrder()
    ensures Ranked(ExampleApi(), ExampleRank)
    ensures DeleteOrder(ExampleApi(), ExampleRank, "root") == ["a1", "a", "b", "root"]
  {
    ExampleChildren();
    ExampleRanked();
    ExampleSteps(ExampleApi(), ExampleRank);
  }

  /** The example's order, from the shape of its hierarchy alone. */
  lemma ExampleSteps(api: Api, rank: string -> nat)
    requires Ranked(api, rank)
    requires Children(api, "root") == ["a", "b"] && Children(api, "a") == ["a1"]
    requires Children(api, "a1") == [] && Children(api, "b") == []
    ensures DeleteOrder(api, rank, "root") == ["a1", "a", "b", "root"]
  {
    LeafOrder(api, rank, "a1");
    LeafOrder(api, rank, "b");
    OneChildOrder(api, rank, "a", "a1");
    TwoChildOrder(api, rank, "root", "a", "b");
  }

  /**
   * A work item linked from two parents is fetched and deleted twice: the
   * walker keeps no record of what it has already deleted.
   */
  lemma SharedChildTwice(api: Api, rank: string -> nat)
    requires Ranked(api, rank)
    requires Children(api, "root") == ["a", "b"]
    requires Children(api, "a") == ["c"] && Children(api, "b") == ["c"] && Children(api, "c") == []
    ensures DeleteOrder(api, rank, "root") == ["c", "a", "c", "b", "root"]
  {
    LeafOrder(api, rank, "c");
    OneChildOrder(api, rank, "a", "c");
    OneChildOrder(api, rank, "b", "c");
    TwoChildOrder(api, rank, "root", "a", "b");
  }
}
