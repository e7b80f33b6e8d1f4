/**
 BindingSet (soprano/bindingset.cpp): the names and values of one query result, and a hash from
 name to offset, kept side by side.
 */
module BindingSets {
  import opened Bytes
  import opened Rdf

  /** The three structures as a value. */
  datatype Bindings = Bindings(names: seq<Blob>, values: seq<Node>, offsets: map<Blob, nat>)

  const NO_BINDINGS := Bindings([], [], map[])

  // The hash gives the last offset of every name.
  ghost predicate Coherent(b: Bindings) {
    && |b.names| == |b.values|
    && (forall name :: name in b.offsets <==> name in b.names)
    && (forall name | name in b.offsets :: b.offsets[name] < |b.names| && b.names[b.offsets[name]] == name)
    && (forall i, name | 0 <= i < |b.names| && name in b.offsets && b.names[i] == name :: i <= b.offsets[name])
  }

  function Inserted(b: Bindings, name: Blob, value: Node): Bindings {
    Bindings(b.names + [name], b.values + [value], b.offsets[name := |b.values|])
  }

  // value( int )
  function ValueAt(b: Bindings, offset: int): Node {
    if 0 <= offset < |b.values| then b.values[offset] else Empty
  }

  // count() is the size of the hash, not of the list of names.
  function Count(b: Bindings): nat {
    |b.offsets|
  }

  ghost predicate Distinct(names: seq<Blob>) {
    forall i, j | 0 <= i < j < |names| :: names[i] != names[j]
  }

  lemma InsertKeepsCoherent(b: Bindings, name: Blob, value: Node)
    requires Coherent(b)
    ensures Coherent(Inserted(b, name, value))
  {
    var b' := Inserted(b, name, value);
    forall n ensures n in b'.offsets <==> n in b'.names {
      if n in b.names {
        var i :| 0 <= i < |b.names| && b.names[i] == n;
        assert b'.names[i] == n;
      }
      assert b'.names[|b.names|] == name;
    }
  }

  function NameSet(names: seq<Blob>): set<Blob> {
    set name | name in names
  }

  lemma DistinctStep(front: seq<Blob>, last: Blob)
    ensures Distinct(front + [last]) <==> Distinct(front) && last !in front
  {
    var names := front + [last];
    if Distinct(names) {
      assert forall i | 0 <= i < |front| :: names[i] == front[i];
      assert forall i | 0 <= i < |front| :: names[i] != names[|front|];
    }
  }

  lemma NameSetStep(front: seq<Blob>, last: Blob)
    ensures NameSet(front + [last]) == NameSet(front) + {last}
    ensures |NameSet(front + [last])| == |NameSet(front)| + if last in front then 0 else 1
  {
    assert NameSet(front + [last]) == NameSet(front) + {last};
    if last in front { assert NameSet(front) + {last} == NameSet(front); }
  }

  lemma {:induction false} NameSetSize(names: seq<Blob>)
    ensures |NameSet(names)| <= |names|
    ensures |NameSet(names)| == |names| <==> Distinct(names)
    decreases |names|
  {
    if names != [] {
      hide NameSet, Distinct;
      var last, front := names[|names| - 1], names[..|names| - 1];
      assert names == front + [last];
      NameSetSize(front);
      DistinctStep(front, last);
      NameSetStep(front, last);
    }
  }

  /** count() agrees with the number of names exactly when no name was inserted twice. */
  lemma CountIsNames(b: Bindings)
    requires Coherent(b)
    ensures Count(b) <= |b.names|
    ensures Count(b) == |b.names| <==> Distinct(b.names)
  {
    assert b.offsets.Keys == NameSet(b.names);
    NameSetSize(b.names);
    assert |b.offsets| == |b.offsets.Keys|;
  }

  /** A set built by insertions alone: the names and values in order. */
  function FromLists(names: seq<Blob>, values: seq<Node>): (b: Bindings)
    requires |names| == |values|
    ensures Coherent(b) && b.names == names && b.values == values
  {
    if names == [] then NO_BINDINGS
    else
      var n := |names| - 1;
      var b := FromLists(names[..n], values[..n]);
      InsertKeepsCoherent(b, names[n], values[n]);
      Inserted(b, names[n], values[n])
  }

  lemma CoherentIsUnique(a: Bindings, b: Bindings)
    requires Coherent(a) && Coherent(b) && a.names == b.names && a.values == b.values
    ensures a == b
  {
    assert a.offsets.Keys == b.offsets.Keys;
    forall name | name in a.offsets ensures a.offsets[name] == b.offsets[name] {
      assert a.offsets[name] <= b.offsets[name] && b.offsets[name] <= a.offsets[name];
    }
  }

  class BindingSet {
    var names: seq<Blob>
    var values: seq<Node>
    var bindingMap: map<Blob, nat>

    ghost function State(): Bindings
      reads this
    {
      Bindings(names, values, bindingMap)
    }

    constructor ()
      ensures State() == NO_BINDINGS && Coherent(State())
    {
      names, values, bindingMap := [], [], map[];
    }

    method Insert(name: Blob, value: Node)
      requires Coherent(State())
      modifies this
      ensures State() == Inserted(old(State()), name, value) && Coherent(State())
    {
      InsertKeepsCoherent(State(), name, value);
      names := names + [name];
      bindingMap := bindingMap[name := |values|];
      values := values + [value];
    }

    /** value( QString ): the node last inserted under the name, or the empty node. */
    method Value(name: Blob) returns (node: Node)
      requires Coherent(State())
      ensures name !in names ==> node == Empty
      ensures name in names ==> exists i :: 0 <= i < |names| && names[i] == name && node == values[i] &&
                                            forall j | i < j < |names| :: names[j] != name
    {
      if name in bindingMap {
        node := values[bindingMap[name]];
        assert names[bindingMap[name]] == name;
      } else {
        node := Empty;
      }
    }

    method Replace(name: Blob, value: Node)
      requires Coherent(State())
      modifies this`values
      ensures Coherent(State())
      ensures values == if name in bindingMap then old(values)[bindingMap[name] := value] else old(values)
    {
      if name in bindingMap {
        values := values[bindingMap[name] := value];
      }
    }
  }
}
