/** Request bodies as nested maps that are changed in place (mocking/preview.go). */
module Body {
  import opened Json
  import opened Preview

  datatype Entry = Leaf(value: Json) | Child(node: BodyNode)

  class BodyNode {
    var entries: map<string, Entry>
    ghost var Repr: set<BodyNode>

    // The objects below each other form a tree.
    ghost predicate Valid()
      reads this, Repr
      decreases Repr
    {
      && this in Repr
      && (forall k | k in entries && entries[k].Child? :: Below(entries[k].node) && entries[k].node.Valid())
      && (forall k | k in entries && entries[k].Leaf? :: !entries[k].value.Obj?)
      && (forall j, k | j in entries && k in entries && j != k && entries[j].Child? && entries[k].Child? ::
            entries[j].node.Repr !! entries[k].node.Repr)
    }

    ghost predicate Below(child: BodyNode)
      reads this, Repr
    {
      child in Repr && child.Repr <= Repr && this !in child.Repr
    }

    ghost function Value(): map<string, Json>
      requires Valid()
      reads this, Repr
      decreases Repr
    {
      map k | k in entries :: if entries[k].Child? then Obj(entries[k].node.Value()) else entries[k].value
    }

    constructor ()
      ensures Valid() && fresh(Repr) && Value() == map[]
    {
      entries := map[];
      Repr := {this};
    }

    // Makes sure that there is an object below a segment.
    method Enter(segment: string)
      requires Valid()
      modifies this
      ensures Valid() && fresh(Repr - old(Repr))
      ensures segment in entries && entries[segment].Child?
      ensures entries[segment].node.Value() == Inner(old(Value()), segment)
      ensures Value() == old(Value())[segment := Obj(entries[segment].node.Value())]
    {
      if segment !in entries || entries[segment].Leaf? {
        var next := new BodyNode();
        entries := entries[segment := Child(next)];
        Repr := Repr + next.Repr;
      }
    }

    // What happens below one segment leaves the other entries alone.
    method SetBelow(segment: string, segments: seq<string>, value: string)
      requires Valid() && segment in entries && entries[segment].Child?
      modifies Repr
      ensures Valid() && fresh(Repr - old(Repr))
      ensures Value() == old(Value())[segment := Obj(Set(old(entries[segment].node.Value()), segments, value))]
      decreases |segments|, 1
    {
      var next := entries[segment].node;
      next.SetValue(segments, value);
      assert forall k | k in entries && k != segment && entries[k].Child? ::
          && entries[k].node.Repr == old(entries[k].node.Repr)
          && entries[k].node.Valid()
          && entries[k].node.Value() == old(entries[k].node.Value());
      Repr := Repr + next.Repr;
    }

    /** setPreviewBodyValue: the walk along the segments. */
    method SetValue(segments: seq<string>, value: string)
      requires Valid()
      modifies Repr
      ensures Valid() && fresh(Repr - old(Repr))
      ensures Value() == Set(old(Value()), segments, value)
      decreases |segments|, 0
    {
      if |segments| == 0 {
        return;
      }
      var segment := segments[0];
      if segment == "" {
        SetValue(segments[1..], value);
      } else if |segments| == 1 {
        entries := entries[segment := Leaf(Str(value))];
      } else {
        Enter(segment);
        SetBelow(segment, segments[1..], value);
      }
    }
  }
}
