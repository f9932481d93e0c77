/** Reverse indices: each class has a hub for every attribute through which other classes refer to it. */
module AttrHubs {
  import opened Digraph
  import opened Options

  datatype Kind = Ref | Rel | Inner | Plain

  datatype Attr = Attr(id: nat, kind: Kind, isIndexed: bool, isASet: bool)

  /** A nested value of an inner object. */
  datatype Nested = Nested(kind: Kind, isIndexed: bool, spec: Option<Name>)

  /** A value and the class whose base clause gives it.  `spec` is the class it refers to, `implied` the
      kind of the implied attribute of an inner object, `list` the references of a list. */
  datatype Value = Value(owner: Name, spec: Option<Name>, implied: Option<Kind>, children: seq<Nested>, list: seq<Name>)

  type AttrIdx = map<Attr, Option<Value>>

  datatype Hub = Hub(attr: Attr, topics: set<Name>)

  type Hubs = map<Name, seq<Hub>>

  function NoHubs(names: set<Name>): Hubs {
    map n | n in names :: []
  }

  // ---------------------------------------------------------------- what the hubs should hold

  /** Value v of attr refers to spec in a way that gets indexed. */
  ghost predicate RefersTo(attr: Attr, v: Value, spec: Name) {
    && attr.isIndexed
    && if attr.isASet then attr.kind.Ref? && spec in v.list
       else
         match attr.kind
         case Ref => v.spec == Some(spec)
         case Inner =>
           || (v.implied == Some(Ref) && v.spec == Some(spec))
           || exists i :: 0 <= i < |v.children| && RefersNested(v.children[i], spec)
         case _ => false
  }

  predicate RefersNested(c: Nested, spec: Name) {
    c.isIndexed && c.kind.Ref? && c.spec == Some(spec)
  }

  /** Class n itself gives attr a value that refers to spec. */
  ghost predicate Mentions(idx: AttrIdx, n: Name, attr: Attr, spec: Name) {
    attr in idx && idx[attr].Some? && idx[attr].value.owner == n && RefersTo(attr, idx[attr].value, spec)
  }

  ghost function RefSpecs(v: Value): iset<Name> {
    iset s: Name | v.spec == Some(s)
  }

  ghost function InnerSpecs(v: Value): iset<Name> {
    iset s: Name |
      || (v.implied == Some(Ref) && v.spec == Some(s))
      || exists i :: 0 <= i < |v.children| && RefersNested(v.children[i], s)
  }

  ghost function ListSpecs(attr: Attr, list: seq<Name>): iset<Name> {
    iset s: Name | attr.kind.Ref? && s in list
  }

  /** The classes in whose hubs indexing v of attr puts the topic. */
  ghost function Specs(attr: Attr, v: Value): iset<Name> {
    iset s: Name | RefersTo(attr, v, s)
  }

  ghost function OwnSpecs(n: Name, attr: Attr, value: Option<Value>): iset<Name> {
    iset s: Name | value.Some? && value.value.owner == n && RefersTo(attr, value.value, s)
  }

  // ---------------------------------------------------------------- what they hold

  function AllOf(order: seq<Name>): set<Name> {
    set n | n in order
  }

  function Topics(hs: seq<Hub>, attr: Attr): set<Name> {
    if hs == [] then {}
    else if hs[0].attr == attr then hs[0].topics
    else Topics(hs[1..], attr)
  }

  ghost predicate OneHubEach(hubs: Hubs) {
    forall s, i, j :: s in hubs && 0 <= i < j < |hubs[s]| ==> hubs[s][i].attr != hubs[s][j].attr
  }

  /** Every (class, attribute) hub gains exactly `topic`, and that just for `attr` and the classes in
      `specs`. */
  ghost predicate Gained(hubs: Hubs, hubs': Hubs, topic: Name, attr: Attr, specs: iset<Name>) {
    && hubs'.Keys == hubs.Keys
    && (OneHubEach(hubs) ==> OneHubEach(hubs'))
    && forall s, a :: s in hubs ==>
         Topics(hubs'[s], a) == if a == attr && s in specs then Topics(hubs[s], a) + {topic} else Topics(hubs[s], a)
  }

  lemma GainedNothing(hubs: Hubs, topic: Name, attr: Attr)
    ensures Gained(hubs, hubs, topic, attr, iset{})
  {
  }

  lemma GainedMore(hubs: Hubs, hubs': Hubs, hubs'': Hubs, topic: Name, attr: Attr, specs: iset<Name>, more: iset<Name>)
    requires Gained(hubs, hubs', topic, attr, specs) && Gained(hubs', hubs'', topic, attr, more)
    ensures Gained(hubs, hubs'', topic, attr, specs + more)
  {
    hide OneHubEach, Topics;
  }

  function FindHub(hs: seq<Hub>, attr: Attr): (i: nat)
    ensures i <= |hs|
    ensures i < |hs| ==> hs[i].attr == attr && Topics(hs, attr) == hs[i].topics
    ensures i == |hs| ==> Topics(hs, attr) == {} && forall j :: 0 <= j < |hs| ==> hs[j].attr != attr
    ensures forall j :: 0 <= j < i ==> hs[j].attr != attr
  {
    if hs == [] || hs[0].attr == attr then 0 else 1 + FindHub(hs[1..], attr)
  }

  lemma {:induction false} TopicsReplaced(hs: seq<Hub>, i: nat, h: Hub, a: Attr)
    requires i < |hs| && h.attr == hs[i].attr && forall j :: 0 <= j < i ==> hs[j].attr != h.attr
    ensures Topics(hs[i := h], a) == if a == h.attr then h.topics else Topics(hs, a)
  {
    if i == 0 {
      assert hs[i := h][1..] == hs[1..];
    } else {
      assert hs[i := h][1..] == hs[1..][i - 1 := h];
      TopicsReplaced(hs[1..], i - 1, h, a);
    }
  }

  // ---------------------------------------------------------------- indexing

  class HubTable {
    /** The hubs of every class, newest first. */
    var hubs: Hubs

    constructor (names: set<Name>)
      ensures hubs == NoHubs(names)
    {
      hubs := NoHubs(names);
    }

    /** The hub of spec for attr, made first in the list if there is none. */
    method FetchHub(spec: Name, attr: Attr) returns (i: nat)
      requires spec in hubs
      modifies this
      ensures spec in hubs && hubs == old(hubs)[spec := hubs[spec]]
      ensures i < |hubs[spec]| && hubs[spec][i].attr == attr
      ensures forall j :: 0 <= j < i ==> hubs[spec][j].attr != attr
      ensures forall a :: Topics(hubs[spec], a) == Topics(old(hubs)[spec], a)
      ensures OneHubEach(old(hubs)) ==> OneHubEach(hubs)
    {
      var hs := hubs[spec];
      i := 0;
      while i < |hs| && hs[i].attr != attr
        invariant 0 <= i <= |hs|
        invariant forall j :: 0 <= j < i ==> hs[j].attr != attr
      {
        i := i + 1;
      }
      if i == |hs| {
        ghost var k := FindHub(hs, attr);
        assert ([Hub(attr, {})] + hs)[1..] == hs;
        hubs := hubs[spec := [Hub(attr, {})] + hs];
        i := 0;
      } else {
        assert hubs[spec := hubs[spec]] == hubs;
      }
    }

    /** Adds the topic to the hub of spec, unless it is there. */
    method AddClassref(spec: Name, attr: Attr, topic: Name)
      requires spec in hubs
      modifies this
      ensures Gained(old(hubs), hubs, topic, attr, iset{spec})
    {
      ghost var before := hubs;
      var i := FetchHub(spec, attr);
      var hs := hubs[spec];
      ghost var k := FindHub(hs, attr);
      assert k == i;
      if topic !in hs[i].topics {
        var h := hs[i].(topics := hs[i].topics + {topic});
        forall a
          ensures Topics(hs[i := h], a) == if a == attr then h.topics else Topics(hs, a)
        {
          TopicsReplaced(hs, i, h, a);
        }
        hubs := hubs[spec := hs[i := h]];
      } else {
        assert Topics(hs, attr) + {topic} == Topics(hs, attr);
      }
    }

    method IndexRef(topic: Name, attr: Attr, v: Value)
      requires v.spec.Some? && v.spec.value in hubs
      modifies this
      ensures Gained(old(hubs), hubs, topic, attr, RefSpecs(v))
    {
      AddClassref(v.spec.value, attr, topic);
      assert RefSpecs(v) == iset{v.spec.value};
    }

    /** The implied reference, then the nested indexed ones. */
    method IndexInner(topic: Name, attr: Attr, v: Value)
      requires v.spec.Some? ==> v.spec.value in hubs
      requires forall c :: c in v.children && c.spec.Some? ==> c.spec.value in hubs
      modifies this
      ensures Gained(old(hubs), hubs, topic, attr, InnerSpecs(v))
    {
      hide Gained;
      ghost var before := hubs;
      ghost var specs := iset{};
      GainedNothing(hubs, topic, attr);
      Known(before, hubs, topic, attr, specs);
      if v.implied.Some? && v.implied.value.Ref? {
        if v.spec.Some? {
          AddClassref(v.spec.value, attr, topic);
          GainedMore(before, before, hubs, topic, attr, iset{}, iset{v.spec.value});
          specs := iset{} + iset{v.spec.value};
          Known(before, hubs, topic, attr, specs);
        }
      }
      ghost var implied := specs;
      assert forall s :: s in implied <==> v.implied == Some(Ref) && v.spec == Some(s);
      var i := 0;
      while i < |v.children|
        invariant 0 <= i <= |v.children|
        invariant hubs.Keys == before.Keys && Gained(before, hubs, topic, attr, specs)
        invariant forall s :: s in specs <==> s in implied || exists j :: 0 <= j < i && RefersNested(v.children[j], s)
      {
        var c := v.children[i];
        ghost var mid := hubs;
        if c.isIndexed && c.kind.Ref? && c.spec.Some? {
          AddClassref(c.spec.value, attr, topic);
          GainedMore(before, mid, hubs, topic, attr, specs, iset{c.spec.value});
          specs := specs + iset{c.spec.value};
          Known(before, hubs, topic, attr, specs);
        }
        i := i + 1;
      }
      assert specs == InnerSpecs(v);
    }

    method IndexList(topic: Name, attr: Attr, v: Value)
      requires attr.kind.Ref? ==> forall s :: s in v.list ==> s in hubs
      modifies this
      ensures Gained(old(hubs), hubs, topic, attr, ListSpecs(attr, v.list))
    {
      hide Gained;
      ghost var before := hubs;
      ghost var specs := iset{};
      GainedNothing(hubs, topic, attr);
      Known(before, hubs, topic, attr, specs);
      var i := 0;
      while i < |v.list|
        invariant 0 <= i <= |v.list|
        invariant hubs.Keys == before.Keys && Gained(before, hubs, topic, attr, specs)
        invariant specs == ListSpecs(attr, v.list[..i])
      {
        ghost var mid := hubs;
        if attr.kind.Ref? {
          AddClassref(v.list[i], attr, topic);
          GainedMore(before, mid, hubs, topic, attr, specs, iset{v.list[i]});
          specs := specs + iset{v.list[i]};
          Known(before, hubs, topic, attr, specs);
        }
        i := i + 1;
      }
      assert v.list[..i] == v.list;
    }

    method IndexAttrVar(topic: Name, attr: Attr, v: Value)
      requires attr.isIndexed && !attr.isASet && ValueOk(hubs.Keys, attr, v)
      modifies this
      ensures Gained(old(hubs), hubs, topic, attr, Specs(attr, v))
    {
      match attr.kind {
        case Ref =>
          IndexRef(topic, attr, v);
          assert RefSpecs(v) == Specs(attr, v);
        case Inner =>
          IndexInner(topic, attr, v);
          assert InnerSpecs(v) == Specs(attr, v);
        case _ =>
          GainedNothing(hubs, topic, attr);
          assert Specs(attr, v) == iset{};
      }
    }

    /** One entry of the attribute index of n: only values n itself gives, of indexed attributes. */
    method IndexAttr(n: Name, attr: Attr, value: Option<Value>)
      requires value.Some? ==> ValueOk(hubs.Keys, attr, value.value)
      modifies this
      ensures Gained(old(hubs), hubs, n, attr, OwnSpecs(n, attr, value))
    {
      ghost var specs := OwnSpecs(n, attr, value);
      GainedNothing(hubs, n, attr);
      if value.None? || !attr.isIndexed || value.value.owner != n {
        assert specs == iset{};
        return;
      }
      assert specs == Specs(attr, value.value);
      if attr.isASet {
        IndexList(n, attr, value.value);
        assert Specs(attr, value.value) == ListSpecs(attr, value.value.list);
      } else {
        IndexAttrVar(n, attr, value.value);
      }
    }

    /** All entries of an index, in any order. */
    method IndexAttrs(n: Name, idx: AttrIdx)
      requires forall a :: a in idx && idx[a].Some? ==> ValueOk(hubs.Keys, a, idx[a].value)
      modifies this
      ensures GainedBy(old(hubs), hubs, idx, n, idx.Keys)
    {
      hide GainedBy, Gained, OneHubEach, Topics, Mentions, ValueOk, OwnSpecs;
      ghost var before := hubs;
      var rest := idx.Keys;
      NoneGained(hubs, idx, n);
      while rest != {}
        invariant rest <= idx.Keys
        invariant hubs.Keys == before.Keys && GainedBy(before, hubs, idx, n, idx.Keys - rest)
      {
        var a :| a in rest;
        ghost var mid, done := hubs, idx.Keys - rest;
        IndexAttr(n, a, idx[a]);
        Known(mid, hubs, n, a, OwnSpecs(n, a, idx[a]));
        GainedOneMore(before, mid, hubs, idx, n, done, a);
        rest := rest - {a};
        assert done + {a} == idx.Keys - rest;
      }
      assert idx.Keys - rest == idx.Keys;
    }

    /** Indexing the classes one after the other: every class gets one hub an attribute, and a topic is in
        it exactly when it gives that attribute, itself, an indexed value that refers to the class. */
    method IndexTopics(order: seq<Name>, indices: map<Name, AttrIdx>)
      requires HubsHold(hubs, indices, {})
      requires forall n :: n in order ==> n in indices
      requires forall n, a :: n in indices && a in indices[n] && indices[n][a].Some? ==>
                 ValueOk(hubs.Keys, a, indices[n][a].value)
      modifies this
      ensures hubs.Keys == old(hubs).Keys
      ensures HubsHold(hubs, indices, AllOf(order))
    {
      hide HubsHold, GainedBy, OneHubEach, Topics, Mentions, ValueOk;
      ghost var done: set<Name> := {};
      var i := 0;
      while i < |order|
        invariant 0 <= i <= |order|
        invariant hubs.Keys == old(hubs).Keys
        invariant done == AllOf(order[..i])
        invariant HubsHold(hubs, indices, done)
      {
        ghost var before := hubs;
        IndexAttrs(order[i], indices[order[i]]);
        KnownBy(before, hubs, indices[order[i]], order[i]);
        HoldsOneMore(before, hubs, indices, done, order[i]);
        done := done + {order[i]};
        assert done == AllOf(order[..i + 1]);
        i := i + 1;
      }
      assert order[..i] == order;
    }
  }

  /** Indexing all classes, starting without hubs. */
  method IndexRepo(names: set<Name>, order: seq<Name>, indices: map<Name, AttrIdx>) returns (table: HubTable)
    requires forall n :: n in order ==> n in indices
    requires forall n, a :: n in indices && a in indices[n] && indices[n][a].Some? ==>
               ValueOk(names, a, indices[n][a].value)
    ensures fresh(table) && table.hubs.Keys == names && HubsHold(table.hubs, indices, AllOf(order))
  {
    hide HubsHold, ValueOk;
    table := new HubTable(names);
    NoHubsHold(names, indices);
    assert table.hubs.Keys == names;
    table.IndexTopics(order, indices);
  }

  lemma NoneGained(hubs: Hubs, idx: AttrIdx, n: Name)
    ensures GainedBy(hubs, hubs, idx, n, idx.Keys - idx.Keys)
  {
  }

  lemma KnownBy(hubs: Hubs, hubs': Hubs, idx: AttrIdx, n: Name)
    requires GainedBy(hubs, hubs', idx, n, idx.Keys)
    ensures hubs'.Keys == hubs.Keys
  {
  }

  lemma NoHubsHold(names: set<Name>, indices: map<Name, AttrIdx>)
    ensures HubsHold(NoHubs(names), indices, {})
  {
  }

  /** The hubs have gained n for those of its attributes in `done`, and nothing else. */
  ghost predicate GainedBy(hubs: Hubs, hubs': Hubs, idx: AttrIdx, n: Name, done: set<Attr>) {
    && hubs'.Keys == hubs.Keys
    && (OneHubEach(hubs) ==> OneHubEach(hubs'))
    && forall s, a, t :: s in hubs ==>
         (t in Topics(hubs'[s], a) <==> t in Topics(hubs[s], a) || (t == n && a in done && Mentions(idx, n, a, s)))
  }

  lemma GainedOneMore(hubs: Hubs, hubs': Hubs, hubs'': Hubs, idx: AttrIdx, n: Name, done: set<Attr>, a: Attr)
    requires GainedBy(hubs, hubs', idx, n, done) && a in idx && a !in done
    requires Gained(hubs', hubs'', n, a, OwnSpecs(n, a, idx[a]))
    ensures GainedBy(hubs, hubs'', idx, n, done + {a})
  {
    hide OneHubEach, Topics, RefersTo;
  }

  /** The hubs hold exactly the mentions of the classes in `done`. */
  ghost predicate HubsHold(hubs: Hubs, indices: map<Name, AttrIdx>, done: set<Name>) {
    && OneHubEach(hubs)
    && forall s, a, t :: s in hubs ==>
         (t in Topics(hubs[s], a) <==> t in done && t in indices && Mentions(indices[t], t, a, s))
  }

  lemma HoldsOneMore(hubs: Hubs, hubs': Hubs, indices: map<Name, AttrIdx>, done: set<Name>, n: Name)
    requires HubsHold(hubs, indices, done) && n in indices
    requires GainedBy(hubs, hubs', indices[n], n, indices[n].Keys)
    ensures HubsHold(hubs', indices, done + {n})
  {
    hide OneHubEach, Topics, RefersTo;
  }

  /** References are resolved, and to known classes. */
  ghost predicate ValueOk(known: set<Name>, attr: Attr, v: Value) {
    && (attr.kind.Ref? && !attr.isASet ==> v.spec.Some?)
    && (v.spec.Some? ==> v.spec.value in known)
    && (forall c :: c in v.children && c.spec.Some? ==> c.spec.value in known)
    && (forall s :: s in v.list ==> s in known)
  }

  lemma Known(hubs: Hubs, hubs': Hubs, topic: Name, attr: Attr, specs: iset<Name>)
    requires Gained(hubs, hubs', topic, attr, specs)
    ensures hubs'.Keys == hubs.Keys
  {
  }
}
