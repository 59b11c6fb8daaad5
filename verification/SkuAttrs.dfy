/** The specifications of a product's variants, grouped back into attributes for the selector. */
module SkuAttrs {

  import opened Prelude

  type Spec = map<string, string>

  datatype Attr = Attr(name: string, values: seq<string>)

  ghost predicate Unique<T>(s: seq<T>) {
    forall i, j :: 0 <= i < j < |s| ==> s[i] != s[j]
  }

  function Names(attrs: seq<Attr>): (names: seq<string>)
    ensures |names| == |attrs|
  {
    seq(|attrs|, (k: nat) requires k < |attrs| => attrs[k].name)
  }

  // ---------------------------------------------------------------------------------------------
  // Values in the order they first occur
  // ---------------------------------------------------------------------------------------------

  function Dedup(s: seq<string>): (r: seq<string>)
    ensures forall v :: v in r <==> v in s
  {
    if s == [] then []
    else
      var init, x := s[..|s| - 1], s[|s| - 1];
      if x in init then Dedup(init) else Dedup(init) + [x]
  }

  lemma {:induction false} DedupUnique(s: seq<string>)
    ensures Unique(Dedup(s)) && |Dedup(s)| <= |s|
    ensures s != [] ==> Dedup(s) != []
  {
    if s != [] {
      DedupUnique(s[..|s| - 1]);
    }
  }

  lemma {:induction false} DedupOfUnique(s: seq<string>)
    requires Unique(s)
    ensures Dedup(s) == s
  {
    if s != [] {
      DedupOfUnique(s[..|s| - 1]);
    }
  }

  /** Of two kept values the earlier one occurs before the later one does at all. */
  lemma {:induction false} DedupInOrder(s: seq<string>, i: nat, j: nat)
    requires i < j < |Dedup(s)|
    ensures exists p :: 0 <= p < |s| && s[p] == Dedup(s)[i] && Dedup(s)[j] !in s[..p + 1]
  {
    var init, x := s[..|s| - 1], s[|s| - 1];
    var kept := Dedup(init);
    if j < |kept| {
      DedupInOrder(init, i, j);
      var p :| 0 <= p < |init| && init[p] == kept[i] && kept[j] !in init[..p + 1];
      assert init[..p + 1] == s[..p + 1];
      assert s[p] == Dedup(s)[i];
    } else {
      assert kept[i] in init;
      var p :| 0 <= p < |init| && init[p] == kept[i];
      assert forall v :: v in s[..p + 1] ==> v in init;
      assert s[p] == Dedup(s)[i];
    }
  }

  lemma {:induction false} DedupAppendKnown(s: seq<string>, t: seq<string>)
    requires forall v :: v in t ==> v in s
    ensures Dedup(s + t) == Dedup(s)
  {
    if t == [] {
      assert s + t == s;
    } else {
      var init := t[..|t| - 1];
      DedupAppendKnown(s, init);
      assert (s + t)[..|s + t| - 1] == s + init;
      assert t[|t| - 1] in t;
    }
  }

  lemma {:induction false} DedupCopies(s: seq<string>, t: seq<string>, v: string)
    requires t != [] && forall x :: x in t ==> x == v
    ensures Dedup(s + t) == if v in s then Dedup(s) else Dedup(s) + [v]
  {
    var init := t[..|t| - 1];
    assert t[|t| - 1] in t;
    assert (s + t)[..|s + t| - 1] == s + init;
    if init == [] {
      assert s + init == s;
    } else {
      assert forall x :: x in init ==> x in t;
      DedupCopies(s, init, v);
      assert init[0] in init && v in s + init;
    }
  }

  // ---------------------------------------------------------------------------------------------
  // Grouping specifications into attributes
  // ---------------------------------------------------------------------------------------------

  /** What the specifications say about one attribute; a specification may leave it out. */
  function ValuesOf(specs: seq<Spec>, name: string): seq<string> {
    if specs == [] then []
    else
      var spec := specs[|specs| - 1];
      ValuesOf(specs[..|specs| - 1], name) + if name in spec then [spec[name]] else []
  }

  lemma {:induction false} ValuesOfAppend(a: seq<Spec>, b: seq<Spec>, name: string)
    ensures ValuesOf(a + b, name) == ValuesOf(a, name) + ValuesOf(b, name)
  {
    if b == [] {
      assert a + b == a;
    } else {
      ValuesOfAppend(a, b[..|b| - 1], name);
      assert (a + b)[..|a + b| - 1] == a + b[..|b| - 1];
    }
  }

  /** A pair is among the values exactly if some specification holds it. */
  lemma {:induction false} ValuesOfExactly(specs: seq<Spec>, name: string, value: string)
    ensures value in ValuesOf(specs, name) <==>
      exists k :: 0 <= k < |specs| && name in specs[k] && specs[k][name] == value
  {
    if specs != [] {
      ValuesOfExactly(specs[..|specs| - 1], name, value);
      assert forall k :: 0 <= k < |specs| - 1 ==> specs[..|specs| - 1][k] == specs[k];
    }
  }

  /** Unparsable specifications are skipped. */
  function Parsed(skus: seq<Option<Spec>>): seq<Spec> {
    if skus == [] then []
    else Parsed(skus[..|skus| - 1]) + if skus[|skus| - 1].Some? then [skus[|skus| - 1].value] else []
  }

  lemma ParsedStep(skus: seq<Option<Spec>>, i: nat)
    requires i < |skus|
    ensures Parsed(skus[..i + 1]) == if skus[i].Some? then Parsed(skus[..i]) + [skus[i].value] else Parsed(skus[..i])
  {
    assert skus[..i + 1][..i] == skus[..i];
    assert Parsed(skus[..i]) + [] == Parsed(skus[..i]);
  }

  function Stored(specs: seq<Spec>): (skus: seq<Option<Spec>>)
    ensures |skus| == |specs|
  {
    seq(|specs|, (k: nat) requires k < |specs| => Some(specs[k]))
  }

  lemma {:induction false} ParsedStored(specs: seq<Spec>)
    ensures Parsed(Stored(specs)) == specs
  {
    if specs != [] {
      var init := specs[..|specs| - 1];
      ParsedStored(init);
      assert Stored(specs)[..|specs| - 1] == Stored(init);
    }
  }

  /** `a` was seen no later than `b`. */
  ghost predicate NoLater(specs: seq<Spec>, a: string, b: string) {
    forall k :: 0 <= k < |specs| && b in specs[k] ==> exists l :: 0 <= l <= k && a in specs[l]
  }

  /** Names in the order they were first met. */
  ghost predicate Ordered(specs: seq<Spec>, order: seq<string>) {
    && Unique(order)
    && (forall name :: name in order <==> ValuesOf(specs, name) != [])
    && (forall i, j :: 0 <= i < j < |order| ==> NoLater(specs, order[i], order[j]))
  }

  /** One attribute per name mentioned, in the order of the first specification to mention it, each with its
      values in the order they first occur. */
  ghost predicate Groups(specs: seq<Spec>, attrs: seq<Attr>) {
    var names := Names(attrs);
    && Ordered(specs, names)
    && (forall k :: 0 <= k < |attrs| ==> attrs[k].values == Dedup(ValuesOf(specs, attrs[k].name)))
  }

  /** The values of each name so far, `seen` as a set. */
  ghost predicate Collected(specs: seq<Spec>, groups: map<string, seq<string>>, seen: map<string, set<string>>) {
    && groups.Keys == seen.Keys
    && (forall name :: name in groups <==> ValuesOf(specs, name) != [])
    && (forall name :: name in groups ==> Group(specs, name, groups[name], seen[name]))
  }

  ghost predicate Group(specs: seq<Spec>, name: string, values: seq<string>, seen: set<string>) {
    && values == Dedup(ValuesOf(specs, name))
    && (forall v :: v in seen <==> v in ValuesOf(specs, name))
  }

  /** The attributes hold each name and value that occur together in some specification exactly once, and
      nothing else. */
  lemma PairsExactly(specs: seq<Spec>, attrs: seq<Attr>, name: string, value: string)
    requires Groups(specs, attrs)
    ensures (exists i :: 0 <= i < |attrs| && attrs[i].name == name && value in attrs[i].values)
      <==> (exists k :: 0 <= k < |specs| && name in specs[k] && specs[k][name] == value)
    ensures Unique(Names(attrs)) && forall i :: 0 <= i < |attrs| ==> Unique(attrs[i].values)
  {
    ValuesOfExactly(specs, name, value);
    if value in ValuesOf(specs, name) {
      assert name in Names(attrs);
      var i :| 0 <= i < |attrs| && Names(attrs)[i] == name;
      assert attrs[i].name == name && value in attrs[i].values;
    }
    forall i | 0 <= i < |attrs| ensures Unique(attrs[i].values) {
      DedupUnique(ValuesOf(specs, attrs[i].name));
    }
  }

  lemma {:induction false} NothingRead(specs: seq<Spec>, name: string)
    ensures ValuesOf(specs + [map[]], name) == ValuesOf(specs, name)
  {
  }

  lemma NothingOrdered(specs: seq<Spec>, order: seq<string>)
    requires Ordered(specs, order)
    ensures Ordered(specs + [map[]], order)
  {
    var after := specs + [map[]];
    forall name ensures name in order <==> ValuesOf(after, name) != [] {
      NothingRead(specs, name);
    }
    forall i, j | 0 <= i < j < |order| ensures NoLater(after, order[i], order[j]) {
      NothingNoLater(specs, order[i], order[j]);
    }
  }

  lemma NothingNoLater(specs: seq<Spec>, a: string, b: string)
    requires NoLater(specs, a, b)
    ensures NoLater(specs + [map[]], a, b)
  {
    var after := specs + [map[]];
    forall k | 0 <= k < |after| && b in after[k] ensures exists l :: 0 <= l <= k && a in after[l] {
      assert after[k] == specs[k];
      var l :| 0 <= l <= k && a in specs[l];
      assert a in after[l];
    }
  }

  lemma NothingCollected(specs: seq<Spec>, groups: map<string, seq<string>>, seen: map<string, set<string>>)
    requires Collected(specs, groups, seen)
    ensures Collected(specs + [map[]], groups, seen)
  {
    forall name
      ensures ValuesOf(specs + [map[]], name) == ValuesOf(specs, name)
      ensures name in groups ==> Group(specs + [map[]], name, groups[name], seen[name])
    {
      NothingRead(specs, name);
      assert name in groups ==> Group(specs, name, groups[name], seen[name]);
    }
  }

  /** Reading one more pair of the specification being read. */
  lemma {:induction false} PairRead(specs: seq<Spec>, part: Spec, name: string, value: string, other: string)
    requires name !in part
    ensures ValuesOf(specs + [part[name := value]], other)
      == ValuesOf(specs + [part], other) + if other == name then [value] else []
  {
  }

  lemma {:induction false} MentionedSomewhere(specs: seq<Spec>, name: string)
    requires ValuesOf(specs, name) != []
    ensures exists l :: 0 <= l < |specs| && name in specs[l]
  {
    var init := specs[..|specs| - 1];
    if ValuesOf(init, name) != [] {
      MentionedSomewhere(init, name);
      var l :| 0 <= l < |init| && name in init[l];
      assert name in specs[l];
    } else {
      assert name in specs[|specs| - 1];
    }
  }

  lemma {:induction false} OrderAfterPair(specs: seq<Spec>, part: Spec, name: string, value: string, a: string, b: string)
    requires name !in part && a != b
    requires ValuesOf(specs + [part], a) != []
    requires b != name ==> NoLater(specs + [part], a, b)
    requires b == name ==> ValuesOf(specs + [part], name) == [] || NoLater(specs + [part], a, name)
    ensures NoLater(specs + [part[name := value]], a, b)
  {
    var before, after := specs + [part], specs + [part[name := value]];
    MentionedSomewhere(before, a);
    var m :| 0 <= m < |before| && a in before[m];
    assert a in after[m];
    forall k | 0 <= k < |after| && b in after[k] ensures exists l :: 0 <= l <= k && a in after[l] {
      if k < |specs| {
        assert b in before[k];
        if b == name && ValuesOf(before, name) == [] {
          NotMentioned(before, name, k);
        } else {
          var l :| 0 <= l <= k && a in before[l];
          assert a in after[l];
        }
      } else {
        assert m <= k;
      }
    }
  }

  lemma {:induction false} NotMentioned(specs: seq<Spec>, name: string, k: nat)
    requires k < |specs| && name in specs[k]
    ensures ValuesOf(specs, name) != []
  {
    if k < |specs| - 1 {
      NotMentioned(specs[..|specs| - 1], name, k);
    }
  }

  method BuildSKUAttrs(skus: seq<Option<Spec>>) returns (attrs: seq<Attr>)
    ensures Groups(Parsed(skus), attrs)
  {
    var order: seq<string> := [];
    var groups: map<string, seq<string>> := map[];
    var seen: map<string, set<string>> := map[];
    var i := 0;
    while i < |skus|
      invariant 0 <= i <= |skus|
      invariant Ordered(Parsed(skus[..i]), order) && Collected(Parsed(skus[..i]), groups, seen)
    {
      ghost var specs := Parsed(skus[..i]);
      ParsedStep(skus, i);
      if skus[i].Some? {
        order, groups, seen := ReadSpec(specs, skus[i].value, order, groups, seen);
      }
      i := i + 1;
    }
    assert skus[..i] == skus;
    attrs := Assemble(order, groups);
  }

  method Assemble(order: seq<string>, groups: map<string, seq<string>>) returns (attrs: seq<Attr>)
    requires forall name :: name in order ==> name in groups
    ensures Names(attrs) == order
    ensures forall k :: 0 <= k < |attrs| ==> attrs[k].values == groups[order[k]]
  {
    attrs := [];
    var j := 0;
    while j < |order|
      invariant 0 <= j <= |order| && |attrs| == j
      invariant forall k :: 0 <= k < j ==> attrs[k] == Attr(order[k], groups[order[k]])
    {
      attrs := attrs + [Attr(order[j], groups[order[j]])];
      j := j + 1;
    }
    assert Names(attrs) == order;
  }

  /** The names of one specification come in any order. */
  method ReadSpec(ghost specs: seq<Spec>, spec: Spec, order: seq<string>, groups: map<string, seq<string>>,
                  seen: map<string, set<string>>)
    returns (order': seq<string>, groups': map<string, seq<string>>, seen': map<string, set<string>>)
    requires Ordered(specs, order) && Collected(specs, groups, seen)
    ensures Ordered(specs + [spec], order') && Collected(specs + [spec], groups', seen')
  {
    order', groups', seen' := order, groups, seen;
    var rest := spec.Keys;
    ghost var part: Spec := map[];
    NothingOrdered(specs, order);
    NothingCollected(specs, groups, seen);
    while rest != {}
      invariant rest <= spec.Keys && part == spec - rest
      invariant Ordered(specs + [part], order') && Collected(specs + [part], groups', seen')
      decreases |rest|
    {
      var name :| name in rest;
      order', groups', seen' := AddPair(specs, part, order', groups', seen', name, spec[name]);
      PartGrows(spec, rest, name);
      rest := rest - {name};
      part := part[name := spec[name]];
    }
    assert part == spec;
  }

  lemma PartGrows(spec: Spec, rest: set<string>, name: string)
    requires rest <= spec.Keys && name in rest
    ensures (spec - rest)[name := spec[name]] == spec - (rest - {name})
  {
  }

  /** The body of the inner loop: one name and value of one specification. */
  method AddPair(ghost specs: seq<Spec>, ghost part: Spec, order: seq<string>, groups: map<string, seq<string>>,
                 seen: map<string, set<string>>, name: string, value: string)
    returns (order': seq<string>, groups': map<string, seq<string>>, seen': map<string, set<string>>)
    requires Ordered(specs + [part], order) && Collected(specs + [part], groups, seen) && name !in part
    ensures Ordered(specs + [part[name := value]], order')
    ensures Collected(specs + [part[name := value]], groups', seen')
  {
    PairOrdered(specs, part, order, name, value);
    order' := if name in groups then order else order + [name];
    groups', seen' := Put(groups, seen, name, value);
    PairIsOneMore(specs, part, name, value);
    PairCollected(specs + [part], specs + [part[name := value]], groups, seen, name, value, groups', seen');
  }

  /** One key has a new value, the others their old one. */
  ghost predicate Updated<V(!new)>(m: map<string, V>, key: string, value: V, m': map<string, V>) {
    m'.Keys == m.Keys + {key} && m'[key] == value && forall other :: other in m && other != key ==> m'[other] == m[other]
  }

  function GroupAt(groups: map<string, seq<string>>, name: string): seq<string> {
    if name in groups then groups[name] else []
  }

  function SeenAt(seen: map<string, set<string>>, name: string): set<string> {
    if name in seen then seen[name] else {}
  }

  function WithValue(values: seq<string>, known: set<string>, value: string): seq<string> {
    if value in known then values else values + [value]
  }

  method Put(groups: map<string, seq<string>>, seen: map<string, set<string>>, name: string, value: string)
    returns (groups': map<string, seq<string>>, seen': map<string, set<string>>)
    requires groups.Keys == seen.Keys
    ensures Updated(groups, name, WithValue(GroupAt(groups, name), SeenAt(seen, name), value), groups')
    ensures Updated(seen, name, SeenAt(seen, name) + {value}, seen')
  {
    groups', seen' := groups, seen;
    ghost var known := SeenAt(seen, name);
    assert value in known ==> known + {value} == known;
    if name !in groups {
      groups' := groups'[name := []];
      seen' := seen'[name := {}];
    }
    if value !in seen'[name] {
      seen' := seen'[name := seen'[name] + {value}];
      groups' := groups'[name := groups'[name] + [value]];
    }
  }

  lemma PairOrdered(specs: seq<Spec>, part: Spec, order: seq<string>, name: string, value: string)
    requires Ordered(specs + [part], order) && name !in part
    ensures Ordered(specs + [part[name := value]], if ValuesOf(specs + [part], name) == [] then order + [name] else order)
  {
    var before, after := specs + [part], specs + [part[name := value]];
    var order' := if ValuesOf(before, name) == [] then order + [name] else order;
    forall other ensures other in order' <==> ValuesOf(after, other) != [] {
      PairRead(specs, part, name, value, other);
    }
    forall i, j | 0 <= i < j < |order'| ensures NoLater(after, order'[i], order'[j]) {
      assert order'[i] == order[i] && order[i] in order;
      if j < |order| {
        assert NoLater(before, order[i], order[j]);
      }
      OrderAfterPair(specs, part, name, value, order'[i], order'[j]);
    }
  }

  ghost predicate OneMore(before: seq<Spec>, after: seq<Spec>, name: string, value: string) {
    forall other :: ValuesOf(after, other) == ValuesOf(before, other) + if other == name then [value] else []
  }

  lemma PairIsOneMore(specs: seq<Spec>, part: Spec, name: string, value: string)
    requires name !in part
    ensures OneMore(specs + [part], specs + [part[name := value]], name, value)
  {
  }

  lemma PairCollected(before: seq<Spec>, after: seq<Spec>, groups: map<string, seq<string>>, seen: map<string, set<string>>,
                      name: string, value: string, groups': map<string, seq<string>>, seen': map<string, set<string>>)
    requires Collected(before, groups, seen) && OneMore(before, after, name, value)
    requires Updated(groups, name, WithValue(GroupAt(groups, name), SeenAt(seen, name), value), groups')
    requires Updated(seen, name, SeenAt(seen, name) + {value}, seen')
    ensures Collected(after, groups', seen')
  {
    forall other
      ensures other in groups' <==> ValuesOf(after, other) != []
      ensures other in groups' ==> Group(after, other, groups'[other], seen'[other])
    {
      PairInGroup(before, after, groups, seen, name, value, groups', seen', other);
    }
  }

  lemma {:induction false} PairInGroup(before: seq<Spec>, after: seq<Spec>, groups: map<string, seq<string>>, seen: map<string, set<string>>,
                    name: string, value: string, groups': map<string, seq<string>>, seen': map<string, set<string>>,
                    other: string)
    requires Collected(before, groups, seen)
    requires Updated(groups, name, WithValue(GroupAt(groups, name), SeenAt(seen, name), value), groups')
    requires Updated(seen, name, SeenAt(seen, name) + {value}, seen')
    requires ValuesOf(after, other) == ValuesOf(before, other) + if other == name then [value] else []
    ensures other in groups' <==> ValuesOf(after, other) != []
    ensures other in groups' ==> Group(after, other, groups'[other], seen'[other])
  {
    var values, known := GroupAt(groups, other), SeenAt(seen, other);
    assert Group(before, other, values, known);
    GroupKept(before, after, other, if other == name then [value] else [], values, known);
  }

  lemma {:induction false} GroupKept(before: seq<Spec>, after: seq<Spec>, name: string, more: seq<string>, values: seq<string>, known: set<string>)
    requires Group(before, name, values, known)
    requires |more| <= 1 && ValuesOf(after, name) == ValuesOf(before, name) + more
    ensures more == [] ==> Group(after, name, values, known)
    ensures more != [] ==> Group(after, name, WithValue(values, known, more[0]), known + {more[0]})
  {
    var s := ValuesOf(before, name);
    if more == [] {
      assert s + more == s;
    } else {
      GroupGrown(before, after, name, more[0], values, known);
    }
  }

  lemma {:induction false} GroupGrown(before: seq<Spec>, after: seq<Spec>, name: string, value: string, values: seq<string>, known: set<string>)
    requires Group(before, name, values, known) && ValuesOf(after, name) == ValuesOf(before, name) + [value]
    ensures Group(after, name, WithValue(values, known, value), known + {value})
  {
  }
}
