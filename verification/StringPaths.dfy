/**
 The string offsets that the size and packing passes collect (src/dlm/idlutil.cpp:839-861, 897-905),
 as an enumeration: every string tag at any depth, once, in the order in which the tags are packed.
 */
module StringPaths {
  import opened Wrappers
  import opened StructDefs

  /** The string tag at the end of a path of tag numbers: its offset, with those of the structures
      that it is in, and its number of elements. */
  ghost function Leaf(tags: seq<Tag>, path: seq<nat>): Option<(int, int)>
    decreases |path|
  {
    if path == [] || path[0] >= |tags| then None
    else
      var tag := tags[path[0]];
      if tag.kind == TYP_STRING then
        if |path| == 1 then Some((tag.offset, if HasArr(tag.flags) then Product(tag.dims) else 1)) else None
      else if HasStruct(tag.flags) && tag.sub.Some? then
        match Leaf(tag.sub.value.tags, path[1..])
        case None => None
        case Some(at) => Some((tag.offset + at.0, at.1))
      else None
  }

  /** Paths in the order in which their tags are reached. */
  predicate Before(p: seq<nat>, q: seq<nat>) {
    if p == [] then q != []
    else q != [] && (p[0] < q[0] || (p[0] == q[0] && Before(p[1..], q[1..])))
  }

  ghost predicate Enumerates(tags: seq<Tag>, paths: seq<seq<nat>>, offs: seq<(int, int)>) {
    && |paths| == |offs|
    && (forall i :: 0 <= i < |paths| ==> Leaf(tags, paths[i]) == Some(offs[i]))
    && (forall i, j :: 0 <= i < j < |paths| ==> Before(paths[i], paths[j]))
    && (forall path :: Leaf(tags, path).Some? ==> path in paths)
  }

  // ---------------------------------------------------------------- one tag

  /** Paths below tag 0. */
  function Below(paths: seq<seq<nat>>): (r: seq<seq<nat>>)
    ensures |r| == |paths| && forall i :: 0 <= i < |r| ==> r[i] == [0] + paths[i]
  {
    seq(|paths|, i requires 0 <= i < |paths| => [0] + paths[i])
  }

  lemma BelowNested(tag: Tag, inner: seq<seq<nat>>, offs: seq<(int, int)>)
    requires tag.kind != TYP_STRING && Nested(tag) && Enumerates(tag.sub.value.tags, inner, offs)
    ensures Enumerates([tag], Below(inner), Shift(offs, tag.offset))
  {
    var paths := Below(inner);
    forall i | 0 <= i < |paths| ensures Leaf([tag], paths[i]) == Some(Shift(offs, tag.offset)[i]) {
      assert paths[i][1..] == inner[i];
    }
    forall i, j | 0 <= i < j < |paths| ensures Before(paths[i], paths[j]) {
      assert paths[i][1..] == inner[i] && paths[j][1..] == inner[j];
    }
    forall path | Leaf([tag], path).Some? ensures path in paths {
      assert Leaf(tag.sub.value.tags, path[1..]).Some?;
      var i :| 0 <= i < |inner| && inner[i] == path[1..];
      assert path == [0] + path[1..];
      assert paths[i] == path;
    }
  }

  lemma StringByItself(tag: Tag)
    requires tag.kind == TYP_STRING
    ensures Enumerates([tag], [[0]], [(tag.offset, Elements(tag))])
  {
    forall path | Leaf([tag], path).Some? ensures path == [0] {
      assert |path| == 1;
    }
    assert [0] in [[0]];
  }

  lemma NoString(tag: Tag)
    requires tag.kind != TYP_STRING && !Nested(tag)
    ensures Enumerates([tag], [], [])
  {
  }

  // ---------------------------------------------------------------- lists of tags

  /** Paths among the tags that come after the first. */
  function After(paths: seq<seq<nat>>): (r: seq<seq<nat>>)
    ensures |r| == |paths|
    ensures forall i :: 0 <= i < |r| ==> r[i] == Next(paths[i])
  {
    seq(|paths|, i requires 0 <= i < |paths| => Next(paths[i]))
  }

  function Next(path: seq<nat>): seq<nat> {
    if path == [] then [] else [path[0] + 1] + path[1..]
  }

  lemma LeafOfFirst(tag: Tag, rest: seq<Tag>, path: seq<nat>)
    ensures path != [] && path[0] == 0 ==> Leaf([tag] + rest, path) == Leaf([tag], path)
    ensures path != [] && path[0] > 0 ==> Leaf([tag], path) == None
  {
  }

  lemma LeafOfRest(tag: Tag, rest: seq<Tag>, path: seq<nat>)
    ensures Leaf([tag] + rest, Next(path)) == Leaf(rest, path)
  {
    if path != [] {
      var next := Next(path);
      assert next[1..] == path[1..];
    }
  }

  lemma NextKeepsOrder(p: seq<nat>, q: seq<nat>)
    requires Before(p, q) && p != []
    ensures Before(Next(p), Next(q))
  {
    assert Next(p)[1..] == p[1..] && Next(q)[1..] == q[1..];
  }

  lemma JoinedLeaves(tag: Tag, rest: seq<Tag>, a: seq<seq<nat>>, x: seq<(int, int)>, b: seq<seq<nat>>, y: seq<(int, int)>, i: nat)
    requires Enumerates([tag], a, x) && Enumerates(rest, b, y) && i < |a| + |b|
    ensures |x| + |y| == |a| + |b| && Leaf([tag] + rest, (a + After(b))[i]) == Some((x + y)[i])
  {
    hide Leaf, Before, Next;
    LeavesHavePaths([tag], a, x);
    if i < |a| {
      LeafOfFirst(tag, rest, a[i]);
    } else {
      LeafOfRest(tag, rest, b[i - |a|]);
    }
  }

  lemma JoinedOrder(tag: Tag, rest: seq<Tag>, a: seq<seq<nat>>, x: seq<(int, int)>, b: seq<seq<nat>>, y: seq<(int, int)>, i: nat, j: nat)
    requires Enumerates([tag], a, x) && Enumerates(rest, b, y) && i < j < |a| + |b|
    ensures Before((a + After(b))[i], (a + After(b))[j])
  {
    hide Leaf, Before, Next;
    LeavesHavePaths([tag], a, x);
    LeavesHavePaths(rest, b, y);
    if |a| <= i {
      NextKeepsOrder(b[i - |a|], b[j - |a|]);
    } else if |a| <= j {
      FirstBeforeRest(a[i], b[j - |a|]);
    }
  }

  lemma JoinedAll(tag: Tag, rest: seq<Tag>, a: seq<seq<nat>>, x: seq<(int, int)>, b: seq<seq<nat>>, y: seq<(int, int)>, path: seq<nat>)
    requires Enumerates([tag], a, x) && Enumerates(rest, b, y) && Leaf([tag] + rest, path).Some?
    ensures path in a + After(b)
  {
    hide Leaf, Before;
    PathGoesSomewhere([tag] + rest, path);
    LeafOfFirst(tag, rest, path);
    if path[0] != 0 {
      var p := [path[0] - 1] + path[1..];
      assert Next(p) == path;
      LeafOfRest(tag, rest, p);
      var i :| 0 <= i < |b| && b[i] == p;
      assert (a + After(b))[|a| + i] == path;
    }
  }

  lemma Joined(tag: Tag, rest: seq<Tag>, a: seq<seq<nat>>, x: seq<(int, int)>, b: seq<seq<nat>>, y: seq<(int, int)>)
    requires Enumerates([tag], a, x) && Enumerates(rest, b, y)
    ensures Enumerates([tag] + rest, a + After(b), x + y)
  {
    hide Leaf, Before;
    var all := a + After(b);
    forall i | 0 <= i < |all| ensures Leaf([tag] + rest, all[i]) == Some((x + y)[i]) {
      JoinedLeaves(tag, rest, a, x, b, y, i);
    }
    forall i, j | 0 <= i < j < |all| ensures Before(all[i], all[j]) {
      JoinedOrder(tag, rest, a, x, b, y, i, j);
    }
    forall path | Leaf([tag] + rest, path).Some? ensures path in all {
      JoinedAll(tag, rest, a, x, b, y, path);
    }
  }

  lemma PathGoesSomewhere(tags: seq<Tag>, path: seq<nat>)
    requires Leaf(tags, path).Some?
    ensures path != [] && path[0] < |tags|
  {
  }

  lemma LeavesHavePaths(tags: seq<Tag>, paths: seq<seq<nat>>, offs: seq<(int, int)>)
    requires Enumerates(tags, paths, offs)
    ensures forall i :: 0 <= i < |paths| ==> paths[i] != [] && paths[i][0] < |tags|
  {
    forall i | 0 <= i < |paths| ensures paths[i] != [] && paths[i][0] < |tags| {
      PathGoesSomewhere(tags, paths[i]);
    }
  }

  lemma FirstBeforeRest(p: seq<nat>, q: seq<nat>)
    requires p != [] && p[0] == 0 && q != []
    ensures Before(p, Next(q))
  {
  }

  // ---------------------------------------------------------------- the theorem

  /** The collected list has one entry for every string tag, in the order of packing. */
  lemma {:induction false} OffsetsInOrder(tags: seq<Tag>) returns (paths: seq<seq<nat>>)
    ensures Enumerates(tags, paths, TagsStringOffsets(tags))
    decreases tags
  {
    hide Enumerates, Nested;
    if tags == [] {
      paths := [];
      NothingToEnumerate();
    } else {
      var tag, rest := tags[0], tags[1..];
      var first: seq<seq<nat>>;
      if tag.kind == TYP_STRING {
        first := [[0]];
        StringByItself(tag);
      } else if Nested(tag) {
        SubIsThere(tag);
        var inner := OffsetsInOrder(tag.sub.value.tags);
        first := Below(inner);
        BelowNested(tag, inner, TagsStringOffsets(tag.sub.value.tags));
      } else {
        first := [];
        NoString(tag);
      }
      TagOffsetsAre(tag);
      var more := OffsetsInOrder(rest);
      paths := first + After(more);
      Joined(tag, rest, first, TagStringOffsets(tag), more, TagsStringOffsets(rest));
      assert tags == [tag] + rest;
    }
  }

  lemma TagOffsetsAre(tag: Tag)
    ensures tag.kind == TYP_STRING ==> TagStringOffsets(tag) == [(tag.offset, Elements(tag))]
    ensures tag.kind != TYP_STRING && Nested(tag) ==>
              TagStringOffsets(tag) == Shift(TagsStringOffsets(tag.sub.value.tags), tag.offset)
    ensures tag.kind != TYP_STRING && !Nested(tag) ==> TagStringOffsets(tag) == []
  {
  }

  lemma SubIsThere(tag: Tag)
    requires Nested(tag)
    ensures tag.sub.Some?
  {
  }

  lemma NothingToEnumerate()
    ensures Enumerates([], [], [])
  {
  }
}
