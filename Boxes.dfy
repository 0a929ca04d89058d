/**
 * The mailbox hierarchy (src/models/Box.ts). Every Box that `fromImapBoxes` builds is
 * pushed onto one accumulator, children before their parent; a reference to a Box is
 * modelled as its position in that accumulator, so a child always sits before its
 * parent. That order is what makes `fullName` (which climbs parents) and `findBox`
 * (which descends children) terminate.
 */
module Boxes {
  import opened Outcomes

  /** The position of a Box in the accumulator of every Box built. */
  type BoxId = nat

  /** A Box: its own name, the server's attributes, the hierarchy delimiter, its children and its parent. */
  datatype Box = Box(name: string, flags: seq<string>, delimiter: string, children: seq<BoxId>, parent: Option<BoxId>)

  /** The delimiter a Box gets when none is given. */
  const DefaultDelimiter: string := "/"

  /** The Box constructor: missing flags become [], a missing delimiter "/", missing children []. */
  function NewBox(name: string, flags: Option<seq<string>>, delimiter: Option<string>,
                  children: Option<seq<BoxId>>, parent: Option<BoxId>): (b: Box)
    ensures b.name == name && b.parent == parent
    ensures flags.None? ==> b.flags == []
    ensures flags.Some? ==> b.flags == flags.value
    ensures delimiter.None? ==> b.delimiter == DefaultDelimiter
    ensures delimiter.Some? ==> b.delimiter == delimiter.value
    ensures children.None? ==> b.children == []
    ensures children.Some? ==> b.children == children.value
  {
    Box(name,
        if flags.Some? then flags.value else [],
        if delimiter.Some? then delimiter.value else DefaultDelimiter,
        if children.Some? then children.value else [],
        parent)
  }

  /** Children sit before their Box and parents after it, inside the accumulator. */
  ghost predicate WellFormed(boxes: seq<Box>)
  {
    && (forall i, k :: 0 <= i < |boxes| && 0 <= k < |boxes[i].children| ==> boxes[i].children[k] < i)
    && (forall i :: 0 <= i < |boxes| && boxes[i].parent.Some? ==> i < boxes[i].parent.value < |boxes|)
  }

  /**
   * The parent back-references agree with the child lists: a Box listed among the
   * children of `p` has parent `p`, and a Box with parent `p` is listed among `p`'s children.
   */
  ghost predicate Tree(boxes: seq<Box>)
  {
    && WellFormed(boxes)
    && (forall i, k :: 0 <= i < |boxes| && 0 <= k < |boxes[i].children| ==>
          boxes[boxes[i].children[k]].parent == Some(i))
    && (forall c :: 0 <= c < |boxes| && boxes[c].parent.Some? ==> c in boxes[boxes[c].parent.value].children)
  }

  /** The `fullName` getter: the parent's full name, the delimiter and the name; the name alone at the top. */
  function FullName(boxes: seq<Box>, id: BoxId): (r: string)
    requires WellFormed(boxes) && id < |boxes|
    ensures |boxes[id].name| <= |r|
    ensures boxes[id].parent.None? ==> r == boxes[id].name
    decreases |boxes| - id
  {
    match boxes[id].parent
    case None => boxes[id].name
    case Some(p) => FullName(boxes, p) + boxes[id].delimiter + boxes[id].name
  }

  /** `d` is `a` or lies below it: climbing the parents of `d` reaches `a`. */
  ghost predicate Descends(boxes: seq<Box>, d: BoxId, a: BoxId)
    requires WellFormed(boxes) && d < |boxes|
    decreases |boxes| - d
  {
    d == a || (boxes[d].parent.Some? && Descends(boxes, boxes[d].parent.value, a))
  }

  /** In a tree, a child's full name is its parent's, the child's delimiter, and its name. */
  lemma ChildFullName(boxes: seq<Box>, p: BoxId, k: nat)
    requires Tree(boxes) && p < |boxes| && k < |boxes[p].children|
    ensures var c := boxes[p].children[k];
            FullName(boxes, c) == FullName(boxes, p) + boxes[c].delimiter + boxes[c].name
  {
  }

  /** Descent is transitive. */
  lemma {:induction false} DescendsTrans(boxes: seq<Box>, d: BoxId, m: BoxId, a: BoxId)
    requires WellFormed(boxes) && d < |boxes| && m < |boxes|
    requires Descends(boxes, d, m) && Descends(boxes, m, a)
    ensures Descends(boxes, d, a)
    decreases |boxes| - d
  {
    if d != m {
      DescendsTrans(boxes, boxes[d].parent.value, m, a);
    }
  }

  /** The full name of a Box extends the full name of every Box above it. */
  lemma {:induction false} AncestorPrefix(boxes: seq<Box>, d: BoxId, a: BoxId)
    requires WellFormed(boxes) && d < |boxes| && a < |boxes| && Descends(boxes, d, a)
    ensures FullName(boxes, a) <= FullName(boxes, d)
    decreases |boxes| - d
  {
    if d != a {
      var p := boxes[d].parent.value;
      AncestorPrefix(boxes, p, a);
      var pre := FullName(boxes, a);
      var mid := FullName(boxes, p);
      var full := FullName(boxes, d);
      assert full == mid + boxes[d].delimiter + boxes[d].name;
      assert full[..|mid|] == mid;
      assert full[..|pre|] == mid[..|pre|] == pre;
    }
  }

  /**
   * Reference search without pruning: `id` itself if its full name is `name`, otherwise
   * the first hit among its children in order, depth first.
   */
  ghost function FindIn(boxes: seq<Box>, id: BoxId, name: string): Option<BoxId>
    requires WellFormed(boxes) && id < |boxes|
    decreases id, 1
  {
    if FullName(boxes, id) == name then Some(id) else FindAmong(boxes, boxes[id].children, id, name)
  }

  /** The first hit of `FindIn` over `ids` in order; every id is below `bound`. */
  ghost function FindAmong(boxes: seq<Box>, ids: seq<BoxId>, bound: nat, name: string): Option<BoxId>
    requires WellFormed(boxes) && bound <= |boxes|
    requires forall k :: 0 <= k < |ids| ==> ids[k] < bound
    decreases bound, 0, |ids|
  {
    if ids == [] then None
    else
      match FindIn(boxes, ids[0], name)
      case Some(r) => Some(r)
      case None => FindAmong(boxes, ids[1..], bound, name)
  }

  /** Soundness: a hit has exactly the requested full name and lies below the Box searched. */
  lemma {:induction false} FindInSound(boxes: seq<Box>, id: BoxId, name: string)
    requires Tree(boxes) && id < |boxes|
    ensures var r := FindIn(boxes, id, name);
            r.Some? ==> r.value < |boxes| && FullName(boxes, r.value) == name && Descends(boxes, r.value, id)
    decreases id, 1
  {
    if FullName(boxes, id) != name {
      FindAmongSound(boxes, boxes[id].children, id, name);
      var r := FindIn(boxes, id, name);
      if r.Some? {
        var k :| 0 <= k < |boxes[id].children| && Descends(boxes, r.value, boxes[id].children[k]);
        var c := boxes[id].children[k];
        assert Descends(boxes, c, id);
        DescendsTrans(boxes, r.value, c, id);
      }
    }
  }

  /** Soundness over a list: a hit has the requested full name and lies below one of the ids. */
  lemma {:induction false} FindAmongSound(boxes: seq<Box>, ids: seq<BoxId>, bound: nat, name: string)
    requires Tree(boxes) && bound <= |boxes|
    requires forall k :: 0 <= k < |ids| ==> ids[k] < bound
    ensures var r := FindAmong(boxes, ids, bound, name);
            r.Some? ==> r.value < |boxes| && FullName(boxes, r.value) == name
                        && exists k :: 0 <= k < |ids| && Descends(boxes, r.value, ids[k])
    decreases bound, 0, |ids|
  {
    if ids != [] {
      FindInSound(boxes, ids[0], name);
      FindAmongSound(boxes, ids[1..], bound, name);
      var r := FindAmong(boxes, ids, bound, name);
      if r.Some? && FindIn(boxes, ids[0], name).None? {
        var k :| 0 <= k < |ids[1..]| && Descends(boxes, r.value, ids[1..][k]);
        assert Descends(boxes, r.value, ids[k + 1]);
      }
    }
  }

  /** A hit for any of the ids is a hit for the list. */
  lemma {:induction false} FindAmongHit(boxes: seq<Box>, ids: seq<BoxId>, bound: nat, name: string, k: nat)
    requires WellFormed(boxes) && bound <= |boxes|
    requires forall j :: 0 <= j < |ids| ==> ids[j] < bound
    requires k < |ids| && FindIn(boxes, ids[k], name).Some?
    ensures FindAmong(boxes, ids, bound, name).Some?
  {
    if k > 0 && FindIn(boxes, ids[0], name).None? {
      FindAmongHit(boxes, ids[1..], bound, name, k - 1);
    }
  }

  /** A hit below a Box is a hit for every Box above it. */
  lemma {:induction false} FindClimbs(boxes: seq<Box>, d: BoxId, a: BoxId, name: string)
    requires Tree(boxes) && d < |boxes| && a < |boxes| && Descends(boxes, d, a)
    requires FindIn(boxes, d, name).Some?
    ensures FindIn(boxes, a, name).Some?
    decreases |boxes| - d
  {
    if d != a {
      var p := boxes[d].parent.value;
      var k :| 0 <= k < |boxes[p].children| && boxes[p].children[k] == d;
      if FullName(boxes, p) != name {
        FindAmongHit(boxes, boxes[p].children, p, name, k);
      }
      FindClimbs(boxes, p, a, name);
    }
  }

  /** Completeness: if a Box below `id` has full name `name`, the search finds a Box. */
  lemma FindInComplete(boxes: seq<Box>, id: BoxId, d: BoxId, name: string)
    requires Tree(boxes) && id < |boxes| && d < |boxes|
    requires Descends(boxes, d, id) && FullName(boxes, d) == name
    ensures FindIn(boxes, id, name).Some?
  {
    FindClimbs(boxes, d, id, name);
  }

  /**
   * Pruning is safe: when `name` does not start with the full name of `id`, nothing
   * below `id` can have full name `name`, so skipping its children loses no hit.
   */
  lemma PruneSafe(boxes: seq<Box>, id: BoxId, name: string)
    requires Tree(boxes) && id < |boxes|
    requires !(FullName(boxes, id) <= name)
    ensures FindIn(boxes, id, name) == None
  {
    FindInSound(boxes, id, name);
    var r := FindIn(boxes, id, name);
    if r.Some? {
      AncestorPrefix(boxes, r.value, id);
    }
  }

  /** The lookup over the top-level boxes finds a Box exactly when some Box below them has that full name. */
  lemma LookupIff(boxes: seq<Box>, roots: seq<BoxId>, name: string)
    requires Tree(boxes)
    requires forall k :: 0 <= k < |roots| ==> roots[k] < |boxes|
    ensures FindAmong(boxes, roots, |boxes|, name).Some? <==>
              exists k, d :: 0 <= k < |roots| && 0 <= d < |boxes| && Descends(boxes, d, roots[k]) && FullName(boxes, d) == name
    ensures var r := FindAmong(boxes, roots, |boxes|, name);
            r.Some? ==> r.value < |boxes| && FullName(boxes, r.value) == name
  {
    FindAmongSound(boxes, roots, |boxes|, name);
    if exists k, d :: 0 <= k < |roots| && 0 <= d < |boxes| && Descends(boxes, d, roots[k]) && FullName(boxes, d) == name {
      var k, d :| 0 <= k < |roots| && 0 <= d < |boxes| && Descends(boxes, d, roots[k]) && FullName(boxes, d) == name;
      FindInComplete(boxes, roots[k], d, name);
      FindAmongHit(boxes, roots, |boxes|, name, k);
    }
  }

  /** The JSON shape of a Box: what `toJson` keeps, without the parent. */
  datatype JsonBox = JsonBox(name: string, flags: seq<string>, delimiter: string, children: seq<JsonBox>)

  /** `toJson`: name, flags and delimiter, and the children's projections in order. */
  function ToJson(boxes: seq<Box>, id: BoxId): (j: JsonBox)
    requires WellFormed(boxes) && id < |boxes|
    ensures j.name == boxes[id].name && j.flags == boxes[id].flags && j.delimiter == boxes[id].delimiter
    ensures |j.children| == |boxes[id].children|
    decreases id
  {
    var cs := boxes[id].children;
    JsonBox(boxes[id].name, boxes[id].flags, boxes[id].delimiter,
            seq(|cs|, k requires 0 <= k < |cs| => ToJson(boxes, cs[k])))
  }

  /** The projections of several boxes, in order. */
  function ToJsonAll(boxes: seq<Box>, ids: seq<BoxId>): (r: seq<JsonBox>)
    requires WellFormed(boxes) && forall k :: 0 <= k < |ids| ==> ids[k] < |boxes|
    ensures |r| == |ids|
    ensures forall k :: 0 <= k < |ids| ==> r[k] == ToJson(boxes, ids[k])
  {
    seq(|ids|, k requires 0 <= k < |ids| => ToJson(boxes, ids[k]))
  }

  /** The Box with its parent erased: everything `toJson` reads of it. */
  function Shape(b: Box): Box
  {
    b.(parent := None)
  }

  /** `toJson` never reads a parent: two accumulators that agree on shapes below `n` project alike. */
  lemma {:induction false} ToJsonFrame(b1: seq<Box>, b2: seq<Box>, n: nat, id: BoxId)
    requires WellFormed(b1) && WellFormed(b2) && n <= |b1| && n <= |b2| && id < n
    requires forall j :: 0 <= j < n ==> Shape(b1[j]) == Shape(b2[j])
    ensures ToJson(b1, id) == ToJson(b2, id)
    decreases id
  {
    assert Shape(b1[id]) == Shape(b2[id]);
    var cs := b1[id].children;
    forall k | 0 <= k < |cs| ensures ToJson(b1, cs[k]) == ToJson(b2, cs[k]) {
      ToJsonFrame(b1, b2, n, cs[k]);
    }
  }

  /**
   * One entry of the server's mailbox listing, in `Object.entries` order. A listing
   * without children (`null`) is the empty list: both give a Box without children.
   */
  datatype ImapEntry = ImapEntry(name: string, attribs: seq<string>, delimiter: Option<string>,
                                 children: seq<ImapEntry>)

  /** The JSON shape `fromImapBoxes` followed by `toJson` gives an entry. */
  function Convert(e: ImapEntry): JsonBox
    decreases e
  {
    var cs := e.children;
    JsonBox(e.name, e.attribs, if e.delimiter.Some? then e.delimiter.value else DefaultDelimiter,
            seq(|cs|, k requires 0 <= k < |cs| => Convert(cs[k])))
  }

  /** `Convert` of each entry, in order. */
  function ConvertAll(es: seq<ImapEntry>): (r: seq<JsonBox>)
    ensures |r| == |es|
  {
    seq(|es|, k requires 0 <= k < |es| => Convert(es[k]))
  }

  /**
   * Boxes built after the earlier roots leave their projections alone, so projecting
   * one more root built from the next entry extends the converted prefix by one.
   */
  lemma ProjectionExtends(prev: seq<Box>, all: seq<Box>, roots: seq<BoxId>, id: BoxId, es: seq<ImapEntry>, k: nat)
    requires WellFormed(prev) && WellFormed(all) && |prev| <= |all| && all[..|prev|] == prev
    requires forall l :: 0 <= l < |roots| ==> roots[l] < |prev|
    requires k < |es| && ToJsonAll(prev, roots) == ConvertAll(es[..k])
    requires id < |all| && ToJson(all, id) == Convert(es[k])
    ensures ToJsonAll(all, roots + [id]) == ConvertAll(es[..k + 1])
  {
    forall l | 0 <= l < |roots| ensures ToJson(all, roots[l]) == ToJson(prev, roots[l]) {
      assert forall j :: 0 <= j < |prev| ==> all[j] == prev[j];
      ToJsonFrame(all, prev, |prev|, roots[l]);
    }
    forall l | 0 <= l <= k ensures ToJsonAll(all, roots + [id])[l] == ConvertAll(es[..k + 1])[l] {
      if l < k {
        assert ToJsonAll(prev, roots)[l] == ConvertAll(es[..k])[l];
      }
    }
  }

  /**
   * A Box appended after `built` whose fields come from `e` and whose children already
   * project to `e`'s children projects to `Convert(e)`, whatever parents it has since set.
   */
  lemma AppendedProjects(built: seq<Box>, all: seq<Box>, e: ImapEntry)
    requires WellFormed(built) && WellFormed(all) && |all| == |built| + 1
    requires forall j :: 0 <= j < |built| ==> Shape(all[j]) == Shape(built[j])
    requires all[|built|].name == e.name && all[|built|].flags == e.attribs
    requires all[|built|].delimiter == if e.delimiter.Some? then e.delimiter.value else DefaultDelimiter
    requires ToJsonAll(built, all[|built|].children) == ConvertAll(e.children)
    ensures ToJson(all, |built|) == Convert(e)
  {
    var kids := all[|built|].children;
    forall k | 0 <= k < |kids| ensures ToJson(all, kids[k]) == ToJsonAll(built, kids)[k] {
      ToJsonFrame(all, built, |built|, kids[k]);
    }
  }

  /** The sum of a list of counts. */
  function Sum(xs: seq<nat>): nat
  {
    if xs == [] then 0 else Sum(xs[..|xs| - 1]) + xs[|xs| - 1]
  }

  /** No count exceeds the sum. */
  lemma {:induction false} SumBounds(xs: seq<nat>, k: nat)
    requires k < |xs|
    ensures xs[k] <= Sum(xs)
  {
    if k < |xs| - 1 {
      SumBounds(xs[..|xs| - 1], k);
    }
  }

  /** The number of entries at every depth, the entry included. */
  function Size(e: ImapEntry): nat
    decreases e
  {
    var cs := e.children;
    1 + Sum(seq(|cs|, k requires 0 <= k < |cs| => Size(cs[k])))
  }

  /** `Size` of each entry, in order. */
  function Sizes(es: seq<ImapEntry>): (r: seq<nat>)
    ensures |r| == |es| && forall k :: 0 <= k < |es| ==> r[k] == Size(es[k])
  {
    seq(|es|, k requires 0 <= k < |es| => Size(es[k]))
  }

  /** The number of entries of a list, at every depth. */
  function SizeAll(es: seq<ImapEntry>): nat
  {
    Sum(Sizes(es))
  }

  /** An entry counts itself and its children's entries. */
  lemma SizeOfChildren(e: ImapEntry)
    ensures Size(e) == 1 + SizeAll(e.children)
  {
    var cs := e.children;
    assert seq(|cs|, k requires 0 <= k < |cs| => Size(cs[k])) == Sizes(cs);
  }

  /** The count of a list grows by one entry's count per entry. */
  lemma SizeAllSnoc(es: seq<ImapEntry>, k: nat)
    requires k < |es|
    ensures SizeAll(es[..k + 1]) == SizeAll(es[..k]) + Size(es[k])
  {
    assert Sizes(es[..k + 1])[..k] == Sizes(es[..k]);
  }

  /** No entry has more entries than the list it belongs to. */
  lemma SizeAllBounds(es: seq<ImapEntry>, k: nat)
    requires k < |es|
    ensures Size(es[k]) <= SizeAll(es)
  {
    SumBounds(Sizes(es), k);
  }

  /**
   * The new Box takes the place after `before`, with the listed children; those
   * children, parentless so far, get it as parent. The result is again a tree.
   */
  lemma AdoptKeepsTree(before: seq<Box>, b: Box, after: seq<Box>)
    requires Tree(before)
    requires b.parent.None?
    requires forall k :: 0 <= k < |b.children| ==> b.children[k] < |before| && before[b.children[k]].parent.None?
    requires |after| == |before| + 1 && after[|before|] == b
    requires forall j :: 0 <= j < |before| ==>
               after[j] == if j in b.children then before[j].(parent := Some(|before|)) else before[j]
    ensures Tree(after)
  {
    var id := |before|;
    forall c | 0 <= c < |after| && after[c].parent.Some?
      ensures c in after[after[c].parent.value].children
    {
      if c < id && c !in b.children {
        var p := before[c].parent.value;
        assert c in before[p].children;
        if p < id {
          assert after[p].children == before[p].children;
        }
      }
    }
    forall i, k | 0 <= i < |after| && 0 <= k < |after[i].children|
      ensures after[after[i].children[k]].parent == Some(i)
    {
      if i < id {
        var c := before[i].children[k];
        assert before[c].parent == Some(i);
        assert c !in b.children;
      }
    }
  }

  /** A command issued to the IMAP handle by the mailbox operations. */
  datatype BoxCall = RenameBox(name: string, newName: string)

  /** `Box.update`: without a session nothing happens; a rename is issued only when `newName` is given. */
  function Update(sessionFound: bool, name: string, newName: Option<string>): (calls: seq<BoxCall>)
    ensures |calls| <= 1
    ensures calls != [] <==> sessionFound && newName.Some?
    ensures calls != [] ==> calls[0] == RenameBox(name, newName.value)
  {
    if sessionFound && newName.Some? then [RenameBox(name, newName.value)] else []
  }

  /** The accumulator `allBoxes` of every Box built by one `fromImapBoxes` pass. */
  class BoxStore {
    var all: seq<Box>

    ghost predicate Valid()
      reads this
    {
      Tree(all)
    }

    constructor ()
      ensures Valid() && all == []
    {
      all := [];
    }

    /**
     * `findBox`: this Box if its full name is `name`; otherwise, only when `name` starts
     * with its full name, the first hit among its children. It returns what the unpruned
     * search returns.
     */
    method FindBox(id: BoxId, name: string) returns (r: Option<BoxId>)
      requires Valid() && id < |all|
      ensures r == FindIn(all, id, name)
      decreases id
    {
      var fullName := FullName(all, id);
      if fullName == name {
        return Some(id);
      }
      if fullName <= name {
        var children := all[id].children;
        for k := 0 to |children|
          invariant FindAmong(all, children, id, name) == FindAmong(all, children[k..], id, name)
        {
          assert children[k..][0] == children[k] && children[k..][1..] == children[k + 1..];
          var found := FindBox(children[k], name);
          if found.Some? {
            return found;
          }
        }
        assert children[|children|..] == [];
        return None;
      }
      PruneSafe(all, id, name);
      return None;
    }

    /** `Box.get` over the top-level boxes: the first hit of `findBox` in order, or none. */
    method Get(roots: seq<BoxId>, name: string) returns (r: Option<BoxId>)
      requires Valid() && forall k :: 0 <= k < |roots| ==> roots[k] < |all|
      ensures r == FindAmong(all, roots, |all|, name)
      ensures r.Some? ==> r.value < |all| && FullName(all, r.value) == name
    {
      LookupIff(all, roots, name);
      for k := 0 to |roots|
        invariant FindAmong(all, roots, |all|, name) == FindAmong(all, roots[k..], |all|, name)
      {
        assert roots[k..][0] == roots[k] && roots[k..][1..] == roots[k + 1..];
        var found := FindBox(roots[k], name);
        if found.Some? {
          return found;
        }
      }
      assert roots[|roots|..] == [];
      return None;
    }

    /**
     * Builds the Box of one entry: first its children (pushed before it), then the Box
     * itself, pushed last, and then each child's parent is set to it.
     */
    method BuildBox(e: ImapEntry) returns (id: BoxId)
      requires Valid()
      modifies this
      ensures Valid()
      ensures |all| == old(|all|) + Size(e) && id == |all| - 1
      ensures all[..old(|all|)] == old(all)
      ensures all[id].parent.None?
      ensures ToJson(all, id) == Convert(e)
      decreases Size(e), 0
    {
      SizeOfChildren(e);
      var kids := FromImapBoxes(e.children);
      ghost var built := all;
      var b := NewBox(e.name, Some(e.attribs), e.delimiter, Some(kids), None);
      id := |all|;
      all := all + [b];
      for i := 0 to |kids|
        invariant |all| == id + 1 && all[id] == b
        invariant forall j :: 0 <= j < id ==>
                    all[j] == if j in kids[..i] then built[j].(parent := Some(id)) else built[j]
      {
        all := all[kids[i] := all[kids[i]].(parent := Some(id))];
      }
      assert kids[..|kids|] == kids;
      AdoptKeepsTree(built, b, all);
      AppendedProjects(built, all, e);
    }

    /**
     * `fromImapBoxes`: one Box per entry at every depth, in entry order, each top-level
     * Box without a parent; earlier boxes of the accumulator stay as they were.
     */
    method FromImapBoxes(entries: seq<ImapEntry>) returns (roots: seq<BoxId>)
      requires Valid()
      modifies this
      ensures Valid()
      ensures |all| == old(|all|) + SizeAll(entries)
      ensures all[..old(|all|)] == old(all)
      ensures |roots| == |entries|
      ensures forall k :: 0 <= k < |roots| ==> old(|all|) <= roots[k] < |all| && all[roots[k]].parent.None?
      ensures forall k, l :: 0 <= k < l < |roots| ==> roots[k] < roots[l]
      ensures ToJsonAll(all, roots) == ConvertAll(entries)
      decreases SizeAll(entries), 1
    {
      ghost var n0 := |all|;
      roots := [];
      for k := 0 to |entries|
        invariant Valid()
        invariant |all| == n0 + SizeAll(entries[..k])
        invariant all[..n0] == old(all)
        invariant |roots| == k
        invariant forall l :: 0 <= l < k ==> n0 <= roots[l] < |all| && all[roots[l]].parent.None?
        invariant forall l, m :: 0 <= l < m < k ==> roots[l] < roots[m]
        invariant ToJsonAll(all, roots) == ConvertAll(entries[..k])
      {
        ghost var prev := all;
        SizeAllBounds(entries, k);
        var id := BuildBox(entries[k]);
        ProjectionExtends(prev, all, roots, id, entries, k);
        assert all[..n0] == prev[..n0];
        roots := roots + [id];
        SizeAllSnoc(entries, k);
      }
      assert entries[..|entries|] == entries;
    }
  }

  /**
   * `Box.getAll`: no session gives no boxes; an error from the server is passed on;
   * otherwise the listing is converted into a fresh accumulator.
   */
  method GetAll(sessionFound: bool, listing: Result<seq<ImapEntry>>) returns (store: BoxStore, r: Result<seq<BoxId>>)
    ensures fresh(store) && store.Valid()
    ensures !sessionFound ==> r == Ok([])
    ensures sessionFound && listing.Err? ==> r == Err(listing.message)
    ensures sessionFound && listing.Ok? ==>
              r.Ok? && |store.all| == SizeAll(listing.value)
              && (forall k :: 0 <= k < |r.value| ==> r.value[k] < |store.all| && store.all[r.value[k]].parent.None?)
              && ToJsonAll(store.all, r.value) == ConvertAll(listing.value)
  {
    store := new BoxStore();
    if !sessionFound {
      return store, Ok([]);
    }
    if listing.Err? {
      return store, Err(listing.message);
    }
    var roots := store.FromImapBoxes(listing.value);
    r := Ok(roots);
  }
}
