/** The product form: attribute rows are read from text and multiplied out into specifications. */
module SkuCombos {

  import opened Prelude
  import opened SkuAttrs

  const MAX_COMBOS := 50

  /** A row of the form as typed; an `Attr` is a row as understood. */
  datatype Row = Row(name: string, values: string)

  // ---------------------------------------------------------------------------------------------
  // Reading rows
  // ---------------------------------------------------------------------------------------------

  predicate IsBlank(c: char) {
    '\t' <= c <= '\r' || c == ' ' || c == '\U{00A0}' || c == '\U{1680}' || '\U{2000}' <= c <= '\U{200A}'
    || c == '\U{2028}' || c == '\U{2029}' || c == '\U{202F}' || c == '\U{205F}' || c == '\U{3000}' || c == '\U{FEFF}'
  }

  predicate IsComma(c: char) {
    c == ',' || c == '\U{FF0C}'
  }

  predicate NoComma(s: string) {
    forall i :: 0 <= i < |s| ==> !IsComma(s[i])
  }

  function Trim(s: string): (t: string)
    ensures NoComma(s) ==> NoComma(t)
    ensures t != [] ==> !IsBlank(t[0]) && !IsBlank(t[|t| - 1])
  {
    if s == [] then s
    else if IsBlank(s[0]) then Trim(s[1..])
    else if IsBlank(s[|s| - 1]) then Trim(s[..|s| - 1])
    else s
  }

  function Split(s: string): (parts: seq<string>)
    ensures parts != []
  {
    if s == [] then [""]
    else if IsComma(s[0]) then [""] + Split(s[1..])
    else
      var parts := Split(s[1..]);
      [[s[0]] + parts[0]] + parts[1..]
  }

  function Kept(parts: seq<string>): seq<string> {
    if parts == [] then []
    else (if Trim(parts[0]) == "" then [] else [Trim(parts[0])]) + Kept(parts[1..])
  }

  function Parse(text: string): seq<string> {
    Kept(Split(text))
  }

  function Join(values: seq<string>): string {
    if values == [] then ""
    else if |values| == 1 then values[0]
    else values[0] + "," + Join(values[1..])
  }

  predicate Plain(value: string) {
    value != "" && Trim(value) == value && NoComma(value)
  }

  ghost predicate AllPlain(values: seq<string>) {
    forall k :: 0 <= k < |values| ==> Plain(values[k])
  }

  lemma {:induction false} SplitNoComma(s: string)
    ensures forall k :: 0 <= k < |Split(s)| ==> NoComma(Split(s)[k])
  {
    if s != [] {
      SplitNoComma(s[1..]);
    }
  }

  lemma {:induction false} KeptPlain(parts: seq<string>)
    requires forall k :: 0 <= k < |parts| ==> NoComma(parts[k])
    ensures AllPlain(Kept(parts))
  {
    if parts != [] {
      KeptPlain(parts[1..]);
    }
  }

  lemma {:induction false} SplitJoined(v: string, rest: string)
    requires NoComma(v)
    ensures Split(v) == [v]
    ensures Split(v + "," + rest) == [v] + Split(rest)
  {
    var s := v + "," + rest;
    if v == [] {
      assert s[1..] == rest;
    } else {
      SplitJoined(v[1..], rest);
      assert s[1..] == v[1..] + "," + rest;
      assert [v[0]] + v[1..] == v;
    }
  }

  lemma {:induction false} JoinThenParse(values: seq<string>)
    requires AllPlain(values)
    ensures Parse(Join(values)) == values
  {
    if values == [] {
      assert Split("")[1..] == [];
    } else if |values| == 1 {
      SplitJoined(values[0], "");
      assert values == [values[0]] && Plain(values[0]) && values[1..] == [];
      assert Kept(values) == [values[0]] + Kept(values[1..]);
    } else if |values| > 1 {
      var rest := values[1..];
      JoinThenParse(rest);
      SplitJoined(values[0], Join(rest));
      assert ([values[0]] + Split(Join(rest)))[1..] == Split(Join(rest));
    }
  }

  /** Either comma separates, the ASCII one and the full-width one. */
  lemma {:induction false} EitherCommaSplits(v: string, c: char, rest: string)
    requires NoComma(v) && (c == ',' || c == '\U{FF0C}')
    ensures Split(v + [c] + rest) == [v] + Split(rest)
  {
    var s := v + [c] + rest;
    if v == [] {
      assert s[1..] == rest;
    } else {
      EitherCommaSplits(v[1..], c, rest);
      assert s[1..] == v[1..] + [c] + rest;
      assert [v[0]] + v[1..] == v;
    }
  }

  predicate AllBlank(s: string) {
    forall i :: 0 <= i < |s| ==> IsBlank(s[i])
  }

  lemma OneMoreBlank(c: char, front: string, middle: string, back: string)
    requires IsBlank(c) && AllBlank(front) && AllBlank(back)
    ensures [c] + (front + middle + back) == ([c] + front) + middle + back && AllBlank([c] + front)
    ensures (front + middle + back) + [c] == front + middle + (back + [c]) && AllBlank(back + [c])
  {
  }

  /** Trimming takes blanks off both ends, and nothing else. */
  lemma {:induction false} TrimExactly(s: string) returns (front: string, back: string)
    ensures s == front + Trim(s) + back && AllBlank(front) && AllBlank(back)
  {
    front, back := "", "";
    if s != [] && IsBlank(s[0]) {
      var middle := Trim(s[1..]);
      front, back := TrimExactly(s[1..]);
      OneMoreBlank(s[0], front, middle, back);
      front := [s[0]] + front;
    } else if s != [] && IsBlank(s[|s| - 1]) {
      var middle := Trim(s[..|s| - 1]);
      front, back := TrimExactly(s[..|s| - 1]);
      OneMoreBlank(s[|s| - 1], front, middle, back);
      back := back + [s[|s| - 1]];
    }
  }

  /** Showing values as text and reading them again loses nothing exactly if every value is non-empty, trimmed
      and free of commas. */
  lemma {:induction false} JoinParseExactly(values: seq<string>)
    ensures Parse(Join(values)) == values <==> AllPlain(values)
  {
    SplitNoComma(Join(values));
    KeptPlain(Split(Join(values)));
    if AllPlain(values) {
      JoinThenParse(values);
    }
  }

  /** Rows without a name or without values are ignored. */
  function Understood(rows: seq<Row>): seq<Attr> {
    if rows == [] then []
    else
      var row := rows[|rows| - 1];
      var attr := Attr(Trim(row.name), Parse(row.values));
      Understood(rows[..|rows| - 1]) + if attr.name != "" && attr.values != [] then [attr] else []
  }

  predicate Good(attr: Attr) {
    attr.name != "" && Trim(attr.name) == attr.name && attr.values != []
  }

  ghost predicate AllGood(attrs: seq<Attr>) {
    forall k :: 0 <= k < |attrs| ==> Good(attrs[k]) && AllPlain(attrs[k].values)
  }

  lemma {:induction false} UnderstoodGood(rows: seq<Row>)
    ensures AllGood(Understood(rows))
  {
    if rows != [] {
      UnderstoodGood(rows[..|rows| - 1]);
      var text := rows[|rows| - 1].values;
      SplitNoComma(text);
      KeptPlain(Split(text));
    }
  }

  /** How attributes of a saved product come back into the form. */
  function Reloaded(attrs: seq<Attr>): seq<Row> {
    if attrs == [] then []
    else
      var last := attrs[|attrs| - 1];
      Reloaded(attrs[..|attrs| - 1]) + [Row(last.name, Join(last.values))]
  }

  lemma {:induction false} UnderstoodOneMore(rows: seq<Row>, attr: Attr)
    requires Good(attr) && AllPlain(attr.values)
    ensures Understood(rows + [Row(attr.name, Join(attr.values))]) == Understood(rows) + [attr]
  {
    JoinThenParse(attr.values);
    assert (rows + [Row(attr.name, Join(attr.values))])[..|rows|] == rows;
  }

  lemma GoodInit(init: seq<Attr>, last: Attr)
    requires AllGood(init + [last])
    ensures AllGood(init) && Good(last) && AllPlain(last.values)
  {
    var attrs := init + [last];
    assert attrs[|init|] == last;
    assert forall k :: 0 <= k < |init| ==> attrs[k] == init[k];
  }

  lemma {:induction false} UnderstoodReloaded(attrs: seq<Attr>)
    requires AllGood(attrs)
    ensures Understood(Reloaded(attrs)) == attrs
  {
    if attrs != [] {
      var init, last := attrs[..|attrs| - 1], attrs[|attrs| - 1];
      assert attrs == init + [last];
      GoodInit(init, last);
      UnderstoodReloaded(init);
      UnderstoodOneMore(Reloaded(init), last);
    }
  }

  // ---------------------------------------------------------------------------------------------
  // Multiplying out
  // ---------------------------------------------------------------------------------------------

  function Extended(base: Spec, attr: Attr): (next: seq<Spec>)
    ensures |next| == |attr.values|
  {
    seq(|attr.values|, (k: nat) requires k < |attr.values| => base[attr.name := attr.values[k]])
  }

  function Extend(combos: seq<Spec>, attr: Attr): seq<Spec> {
    if combos == [] then [] else Extend(combos[..|combos| - 1], attr) + Extended(combos[|combos| - 1], attr)
  }

  function Product(attrs: seq<Attr>): seq<Spec> {
    if attrs == [] then [map[]] else Extend(Product(attrs[..|attrs| - 1]), attrs[|attrs| - 1])
  }

  function Combinations(attrs: seq<Attr>): nat {
    if attrs == [] then 1 else Combinations(attrs[..|attrs| - 1]) * |attrs[|attrs| - 1].values|
  }

  /** What the form generates, and whether it was cut short: the rows after the cut are not looked at. */
  function Generated(attrs: seq<Attr>): (seq<Spec>, bool) {
    if attrs == [] then ([map[]], false)
    else
      var (combos, cut) := Generated(attrs[..|attrs| - 1]);
      if cut then (combos, true)
      else
        var next := Extend(combos, attrs[|attrs| - 1]);
        if |next| > MAX_COMBOS then (next[..MAX_COMBOS], true) else (next, false)
  }

  /** Without a usable row nothing is generated. */
  method GenerateSkus(rows: seq<Row>) returns (specs: Option<seq<Spec>>)
    ensures specs == if Understood(rows) == [] then None else Some(Generated(Understood(rows)).0)
  {
    var valid := ReadRows(rows);
    if |valid| == 0 {
      return None;
    }
    var combos := Combine(valid);
    return Some(combos);
  }

  method Combine(valid: seq<Attr>) returns (combos: seq<Spec>)
    ensures combos == Generated(valid).0
  {
    combos := [map[]];
    var cut := false;
    var i := 0;
    while i < |valid| && !cut
      invariant 0 <= i <= |valid|
      invariant (combos, cut) == Generated(valid[..i])
    {
      GeneratedStep(valid, i);
      combos := ExtendAll(combos, valid[i]);
      if |combos| > MAX_COMBOS {
        combos := combos[..MAX_COMBOS];
        cut := true;
      }
      i := i + 1;
    }
    StaysCut(valid, i);
    assert valid[..|valid|] == valid;
  }

  lemma GeneratedStep(attrs: seq<Attr>, i: nat)
    requires i < |attrs| && !Generated(attrs[..i]).1
    ensures var next := Extend(Generated(attrs[..i]).0, attrs[i]);
      Generated(attrs[..i + 1]) == if |next| > MAX_COMBOS then (next[..MAX_COMBOS], true) else (next, false)
  {
    assert attrs[..i + 1][..i] == attrs[..i];
  }

  method ReadRows(rows: seq<Row>) returns (valid: seq<Attr>)
    ensures valid == Understood(rows)
  {
    valid := [];
    var i := 0;
    while i < |rows|
      invariant 0 <= i <= |rows|
      invariant valid == Understood(rows[..i])
    {
      assert rows[..i + 1][..i] == rows[..i];
      var attr := Attr(Trim(rows[i].name), Parse(rows[i].values));
      if attr.name != "" && |attr.values| > 0 {
        valid := valid + [attr];
      }
      i := i + 1;
    }
    assert rows[..i] == rows;
  }

  method ExtendAll(combos: seq<Spec>, attr: Attr) returns (next: seq<Spec>)
    ensures next == Extend(combos, attr)
  {
    next := [];
    var i := 0;
    while i < |combos|
      invariant 0 <= i <= |combos|
      invariant next == Extend(combos[..i], attr)
    {
      assert combos[..i + 1][..i] == combos[..i];
      ghost var before := next;
      var j := 0;
      while j < |attr.values|
        invariant 0 <= j <= |attr.values|
        invariant next == before + Extended(combos[i], attr)[..j]
      {
        next := next + [combos[i][attr.name := attr.values[j]]];
        j := j + 1;
      }
      assert Extended(combos[i], attr)[..j] == Extended(combos[i], attr);
      i := i + 1;
    }
    assert combos[..i] == combos;
  }

  lemma {:induction false} StaysCut(attrs: seq<Attr>, i: nat)
    requires i <= |attrs|
    ensures Generated(attrs[..i]).1 ==> Generated(attrs) == Generated(attrs[..i])
    decreases |attrs| - i
  {
    if i < |attrs| {
      assert attrs[..i + 1][..i] == attrs[..i];
      StaysCut(attrs, i + 1);
    } else {
      assert attrs[..i] == attrs;
    }
  }

  ghost predicate Filled(attrs: seq<Attr>) {
    forall k :: 0 <= k < |attrs| ==> attrs[k].values != []
  }

  lemma {:induction false} ExtendSize(combos: seq<Spec>, attr: Attr)
    ensures |Extend(combos, attr)| == |combos| * |attr.values|
  {
    if combos != [] {
      ExtendSize(combos[..|combos| - 1], attr);
      assert |combos| * |attr.values| == (|combos| - 1) * |attr.values| + |attr.values|;
    }
  }

  lemma {:induction false} ProductSize(attrs: seq<Attr>)
    ensures |Product(attrs)| == Combinations(attrs)
  {
    if attrs != [] {
      ProductSize(attrs[..|attrs| - 1]);
      ExtendSize(Product(attrs[..|attrs| - 1]), attrs[|attrs| - 1]);
    }
  }

  lemma {:induction false} CutExactly(attrs: seq<Attr>)
    requires Filled(attrs)
    ensures Generated(attrs).1 <==> Combinations(attrs) > MAX_COMBOS
    ensures Generated(attrs).0 == Product(attrs) || |Generated(attrs).0| == MAX_COMBOS < |Product(attrs)|
    ensures !Generated(attrs).1 ==> Generated(attrs).0 == Product(attrs)
    ensures Generated(attrs).1 ==> |Generated(attrs).0| == MAX_COMBOS
  {
    ProductSize(attrs);
    if attrs != [] {
      var init, last := attrs[..|attrs| - 1], attrs[|attrs| - 1];
      CutExactly(init);
      Grows(Combinations(init), |last.values|);
    }
  }

  /** The fifty that are kept are the first ones of the first rows that have more than fifty. */
  lemma {:induction false} CutKeepsFirst(attrs: seq<Attr>)
    requires Filled(attrs) && Combinations(attrs) > MAX_COMBOS
    ensures exists k: nat :: FirstAbove(attrs, k) && |Product(attrs[..k])| > MAX_COMBOS
                             && Generated(attrs).0 == Product(attrs[..k])[..MAX_COMBOS]
  {
    var init := attrs[..|attrs| - 1];
    CutExactly(init);
    if Combinations(init) > MAX_COMBOS {
      CutKeepsFirst(init);
      var k: nat :| FirstAbove(init, k) && |Product(init[..k])| > MAX_COMBOS && Generated(init).0 == Product(init[..k])[..MAX_COMBOS];
      assert init[..k] == attrs[..k] && init[..k - 1] == attrs[..k - 1];
      assert FirstAbove(attrs, k);
    } else {
      ProductSize(attrs);
      assert attrs[..|attrs|] == attrs;
      assert FirstAbove(attrs, |attrs|);
    }
  }

  /** The k-th row is the one that takes the combinations above fifty. */
  predicate FirstAbove(attrs: seq<Attr>, k: nat) {
    0 < k <= |attrs| && Combinations(attrs[..k]) > MAX_COMBOS >= Combinations(attrs[..k - 1])
  }

  lemma Grows(a: nat, n: nat)
    requires n >= 1
    ensures a * n >= a
  {
  }

  /** The form generates all combinations exactly if there are at most fifty. */
  lemma {:induction false} CompleteExactly(attrs: seq<Attr>)
    requires Filled(attrs)
    ensures Generated(attrs).0 == Product(attrs) <==> Combinations(attrs) <= MAX_COMBOS
  {
    CutExactly(attrs);
    ProductSize(attrs);
  }

  // ---------------------------------------------------------------------------------------------
  // What the product is
  // ---------------------------------------------------------------------------------------------

  predicate Picks(spec: Spec, attr: Attr) {
    attr.name in spec && spec[attr.name] in attr.values
  }

  /** One of the attribute's values for every attribute, and nothing else. */
  ghost predicate Chooses(spec: Spec, attrs: seq<Attr>) {
    && (forall name :: name in spec <==> name in Names(attrs))
    && (forall k :: 0 <= k < |attrs| ==> Picks(spec, attrs[k]))
  }

  ghost predicate Adds(base: Spec, attr: Attr, spec: Spec) {
    exists v :: v in attr.values && spec == base[attr.name := v]
  }

  lemma {:induction false} ExtendExactly(combos: seq<Spec>, attr: Attr, spec: Spec)
    ensures spec in Extend(combos, attr) <==> exists base :: base in combos && Adds(base, attr, spec)
  {
    if combos != [] {
      var init, last := combos[..|combos| - 1], combos[|combos| - 1];
      ExtendExactly(init, attr, spec);
      ExtendedExactly(last, attr, spec);
      assert combos == init + [last];
      assert Adds(last, attr, spec) ==> last in combos;
    }
  }

  lemma ExtendedExactly(base: Spec, attr: Attr, spec: Spec)
    ensures spec in Extended(base, attr) <==> Adds(base, attr, spec)
  {
    var next := Extended(base, attr);
    if spec in next {
      var k :| 0 <= k < |next| && next[k] == spec;
      assert attr.values[k] in attr.values;
    }
    if Adds(base, attr, spec) {
      var v :| v in attr.values && spec == base[attr.name := v];
      var k :| 0 <= k < |attr.values| && attr.values[k] == v;
      assert next[k] == spec;
    }
  }

  lemma NamesInit(attrs: seq<Attr>)
    requires attrs != []
    ensures Names(attrs) == Names(attrs[..|attrs| - 1]) + [attrs[|attrs| - 1].name]
  {
  }

  lemma UniqueInit(names: seq<string>, name: string)
    requires Unique(names + [name])
    ensures Unique(names) && name !in names
  {
    var all := names + [name];
    assert forall i :: 0 <= i < |names| ==> all[i] == names[i] && all[i] != all[|names|];
  }

  /** The generated list is the Cartesian product: it holds exactly the choices of one value per attribute. */
  lemma {:induction false} ProductExactly(attrs: seq<Attr>, spec: Spec)
    requires Unique(Names(attrs))
    ensures spec in Product(attrs) <==> Chooses(spec, attrs)
  {
    if attrs == [] {
      assert Chooses(spec, attrs) ==> spec == map[];
    } else {
      var init, last := attrs[..|attrs| - 1], attrs[|attrs| - 1];
      NamesInit(attrs);
      UniqueInit(Names(init), last.name);
      ExtendExactly(Product(init), last, spec);
      assert attrs == init + [last];
      if spec in Product(attrs) {
        var base :| base in Product(init) && Adds(base, last, spec);
        ProductExactly(init, base);
        ChoiceExtended(base, init, last, spec);
      }
      if Chooses(spec, attrs) {
        ChoiceRestricted(spec, init, last);
        ProductExactly(init, spec - {last.name});
      }
    }
  }

  lemma ChoiceExtended(base: Spec, init: seq<Attr>, last: Attr, spec: Spec)
    requires Chooses(base, init) && last.name !in Names(init) && Adds(base, last, spec)
    ensures Chooses(spec, init + [last])
  {
    var attrs := init + [last];
    assert attrs[..|init|] == init;
    NamesInit(attrs);
    forall k | 0 <= k < |init| ensures Names(attrs)[k] == Names(init)[k] && attrs[k] == init[k] && attrs[k].name != last.name {
      assert Names(init)[k] in Names(init);
    }
  }

  lemma ChoiceRestricted(spec: Spec, init: seq<Attr>, last: Attr)
    requires Chooses(spec, init + [last]) && last.name !in Names(init)
    ensures Chooses(spec - {last.name}, init)
    ensures Adds(spec - {last.name}, last, spec)
  {
    var attrs := init + [last];
    assert attrs[..|init|] == init;
    NamesInit(attrs);
    assert Names(attrs)[|init|] == last.name && attrs[|init|] == last;
    assert spec == (spec - {last.name})[last.name := spec[last.name]];
    forall k | 0 <= k < |init|
      ensures Picks(spec - {last.name}, init[k])
    {
      assert Picks(spec, attrs[k]) && Names(init)[k] in Names(init) && Names(attrs)[k] == Names(init)[k] && attrs[k] == init[k];
    }
  }

  // ---------------------------------------------------------------------------------------------
  // Round trips
  // ---------------------------------------------------------------------------------------------

  lemma {:induction false} ValuesOfExtended(base: Spec, attr: Attr, name: string)
    ensures ValuesOf(Extended(base, attr), attr.name) == attr.values
    ensures name in base && name != attr.name ==> forall v :: v in ValuesOf(Extended(base, attr), name) ==> v == base[name]
    ensures name in base && name != attr.name ==> |ValuesOf(Extended(base, attr), name)| == |attr.values|
    ensures name !in base && name != attr.name ==> ValuesOf(Extended(base, attr), name) == []
    decreases |attr.values|
  {
    var next := Extended(base, attr);
    if attr.values != [] {
      var shorter := attr.(values := attr.values[..|attr.values| - 1]);
      ValuesOfExtended(base, shorter, name);
      assert next[..|next| - 1] == Extended(base, shorter);
    }
  }

  /** Each combination already there is repeated once per new value, which first occurrences do not show. */
  lemma {:induction false} ExtendKeepsOthers(combos: seq<Spec>, attr: Attr, name: string)
    requires name != attr.name && attr.values != []
    ensures Dedup(ValuesOf(Extend(combos, attr), name)) == Dedup(ValuesOf(combos, name))
  {
    if combos != [] {
      var init, last := combos[..|combos| - 1], combos[|combos| - 1];
      var before, copies := ValuesOf(Extend(init, attr), name), ValuesOf(Extended(last, attr), name);
      ExtendKeepsOthers(init, attr, name);
      ValuesOfAppend(Extend(init, attr), Extended(last, attr), name);
      ValuesOfExtended(last, attr, name);
      if name in last {
        DedupCopies(before, copies, last[name]);
        DedupCopies(ValuesOf(init, name), [last[name]], last[name]);
        SameMembers(before, ValuesOf(init, name), last[name]);
      } else {
        assert before + copies == before;
        assert ValuesOf(combos, name) == ValuesOf(init, name);
      }
    }
  }

  lemma {:induction false} SameMembers(s: seq<string>, t: seq<string>, v: string)
    requires Dedup(s) == Dedup(t)
    ensures v in s <==> v in t
  {
  }

  /** The new attribute's values come around once per combination. */
  lemma {:induction false} ExtendAddsValues(combos: seq<Spec>, attr: Attr)
    requires combos != []
    ensures Dedup(ValuesOf(Extend(combos, attr), attr.name)) == Dedup(attr.values)
  {
    var init, last := combos[..|combos| - 1], combos[|combos| - 1];
    var before := ValuesOf(Extend(init, attr), attr.name);
    ValuesOfAppend(Extend(init, attr), Extended(last, attr), attr.name);
    ValuesOfExtended(last, attr, attr.name);
    if init == [] {
      assert before + attr.values == attr.values;
    } else {
      ExtendAddsValues(init, attr);
      forall v | v in attr.values ensures v in before {
        SameMembers(before, attr.values, v);
      }
      DedupAppendKnown(before, attr.values);
    }
  }

  lemma {:induction false} ProductNotEmpty(attrs: seq<Attr>)
    requires Filled(attrs)
    ensures Product(attrs) != []
    decreases |attrs|
  {
    if attrs != [] {
      var init, last := attrs[..|attrs| - 1], attrs[|attrs| - 1];
      ProductNotEmpty(init);
      ExtendSize(Product(init), last);
      Grows(|Product(init)|, |last.values|);
    }
  }

  /** Any attribute's values can be read off the product in the order of the row. */
  lemma {:induction false} ProductValues(attrs: seq<Attr>, k: nat)
    requires k < |attrs| && Filled(attrs) && Unique(Names(attrs))
    ensures Dedup(ValuesOf(Product(attrs), attrs[k].name)) == Dedup(attrs[k].values)
    decreases |attrs|
  {
    var init, last := attrs[..|attrs| - 1], attrs[|attrs| - 1];
    ProductNotEmpty(init);
    NamesInit(attrs);
    UniqueInit(Names(init), last.name);
    if k == |init| {
      ExtendAddsValues(Product(init), last);
    } else {
      ProductValues(init, k);
      assert Names(init)[k] in Names(init);
      ExtendKeepsOthers(Product(init), last, attrs[k].name);
    }
  }

  lemma {:induction false} ProductMentions(attrs: seq<Attr>, name: string)
    requires name !in Names(attrs)
    ensures ValuesOf(Product(attrs), name) == []
  {
    if attrs == [] {
      assert Product(attrs)[..0] == [];
    } else {
      var init, last := attrs[..|attrs| - 1], attrs[|attrs| - 1];
      NamesInit(attrs);
      assert Names(attrs)[|attrs| - 1] in Names(attrs);
      assert forall n :: n in Names(init) ==> n in Names(attrs);
      ProductMentions(init, name);
      ExtendMentions(Product(init), last, name);
    }
  }

  lemma {:induction false} ExtendMentions(combos: seq<Spec>, attr: Attr, name: string)
    requires name != attr.name && ValuesOf(combos, name) == []
    ensures ValuesOf(Extend(combos, attr), name) == []
  {
    if combos != [] {
      var init, last := combos[..|combos| - 1], combos[|combos| - 1];
      ExtendMentions(init, attr, name);
      ValuesOfAppend(Extend(init, attr), Extended(last, attr), name);
      ValuesOfExtended(last, attr, name);
    }
  }

  /** The attributes read back are the attributes generated from: the same names, each once, each with its
      values in the order of the row, repetitions dropped. */
  ghost predicate Recovered(attrs: seq<Attr>, out: seq<Attr>) {
    && Unique(Names(out))
    && (forall name :: name in Names(out) <==> name in Names(attrs))
    && (forall i, k :: 0 <= i < |out| && 0 <= k < |attrs| && out[i].name == attrs[k].name ==> out[i].values == Dedup(attrs[k].values))
  }

  /** Whenever the form generates every combination, grouping them gives the attributes back. */
  lemma {:induction false} RoundTrip(attrs: seq<Attr>, out: seq<Attr>)
    requires Filled(attrs) && Unique(Names(attrs)) && Combinations(attrs) <= MAX_COMBOS
    requires Groups(Parsed(Stored(Generated(attrs).0)), out)
    ensures Recovered(attrs, out)
    ensures forall i, k :: 0 <= i < |out| && 0 <= k < |attrs| && out[i].name == attrs[k].name && Unique(attrs[k].values) ==>
      out[i] == attrs[k]
  {
    var specs := Product(attrs);
    CompleteExactly(attrs);
    ParsedStored(specs);
    forall name ensures name in Names(out) <==> name in Names(attrs) {
      if name in Names(attrs) {
        var k :| 0 <= k < |attrs| && Names(attrs)[k] == name;
        ProductValues(attrs, k);
        DedupUnique(attrs[k].values);
      } else {
        ProductMentions(attrs, name);
      }
    }
    forall i, k | 0 <= i < |out| && 0 <= k < |attrs| && out[i].name == attrs[k].name
      ensures out[i].values == Dedup(attrs[k].values)
      ensures Unique(attrs[k].values) ==> out[i].values == attrs[k].values
    {
      ProductValues(attrs, k);
      if Unique(attrs[k].values) {
        DedupOfUnique(attrs[k].values);
      }
    }
  }

  lemma {:induction false} GeneratedNames(attrs: seq<Attr>, spec: Spec, name: string)
    requires spec in Generated(attrs).0 && name in spec
    ensures name in Names(attrs)
  {
    if attrs != [] {
      var init, last := attrs[..|attrs| - 1], attrs[|attrs| - 1];
      NamesInit(attrs);
      if Generated(init).1 {
        GeneratedNames(init, spec, name);
      } else {
        ExtendExactly(Generated(init).0, last, spec);
        var base :| base in Generated(init).0 && Adds(base, last, spec);
        if name != last.name {
          GeneratedNames(init, base, name);
        }
      }
    }
  }

  /** Cutting loses attributes, not only combinations: the last row takes part exactly if the rows before it have
      at most fifty combinations. */
  lemma {:induction false} LastRowKeptExactly(attrs: seq<Attr>)
    requires attrs != [] && Filled(attrs) && Unique(Names(attrs))
    ensures ValuesOf(Generated(attrs).0, attrs[|attrs| - 1].name) != []
      <==> Combinations(attrs[..|attrs| - 1]) <= MAX_COMBOS
  {
    var init := attrs[..|attrs| - 1];
    if Combinations(init) <= MAX_COMBOS {
      LastRowKept(attrs);
    } else {
      LastRowLost(attrs);
    }
  }

  const EIGHT := ["1", "2", "3", "4", "5", "6", "7", "8"]

  function ThreeAttrs(): seq<Attr> {
    [Attr("size", EIGHT)] + [Attr("colour", EIGHT[..7])] + [Attr("weight", ["1"])]
  }

  /** The rows as typed. */
  function ThreeRows(): seq<Row> {
    Reloaded(ThreeAttrs())
  }

  /** Three usable rows with eight, seven and one value: eight times seven is cut at fifty, and the product comes out
      without a weight. */
  lemma WeightIsLost()
    ensures Understood(ThreeRows()) == ThreeAttrs() && Names(ThreeAttrs()) == ["size", "colour", "weight"]
    ensures |Generated(ThreeAttrs()).0| == 50 && ValuesOf(Generated(ThreeAttrs()).0, "weight") == []
  {
    ThreeRowsAreGood(ThreeAttrs());
    UnderstoodReloaded(ThreeAttrs());
    WeightIsCut(ThreeAttrs(), [Attr("size", EIGHT)] + [Attr("colour", EIGHT[..7])]);
  }

  lemma {:induction false} WeightIsCut(attrs: seq<Attr>, two: seq<Attr>)
    requires two == [Attr("size", EIGHT)] + [Attr("colour", EIGHT[..7])] && attrs == two + [Attr("weight", ["1"])]
    requires Filled(attrs) && Names(attrs) == ["size", "colour", "weight"]
    ensures |Generated(attrs).0| == MAX_COMBOS && ValuesOf(Generated(attrs).0, "weight") == []
  {
    TwoRowsMultiply();
    assert attrs[..2] == two;
    LastRowLost(attrs);
    CutExactly(attrs);
  }

  lemma OneCharacterIsPlain(c: char)
    requires !IsBlank(c) && !IsComma(c)
    ensures Plain([c])
  {
  }

  lemma EightArePlain()
    ensures AllPlain(EIGHT) && AllPlain(EIGHT[..7]) && AllPlain(["1"])
  {
    forall k | 0 <= k < 8 ensures Plain(EIGHT[k]) {
      assert EIGHT[k] == [EIGHT[k][0]] && '1' <= EIGHT[k][0] <= '8';
      OneCharacterIsPlain(EIGHT[k][0]);
    }
    OneCharacterIsPlain('1');
  }

  lemma OneMoreRow(attrs: seq<Attr>, attr: Attr)
    requires AllGood(attrs) && Filled(attrs) && Good(attr) && AllPlain(attr.values)
    ensures AllGood(attrs + [attr]) && Filled(attrs + [attr]) && Names(attrs + [attr]) == Names(attrs) + [attr.name]
  {
  }

  lemma ThreeRowsAreGood(attrs: seq<Attr>)
    requires attrs == [Attr("size", EIGHT)] + [Attr("colour", EIGHT[..7])] + [Attr("weight", ["1"])]
    ensures AllGood(attrs) && Filled(attrs) && Names(attrs) == ["size", "colour", "weight"]
  {
    EightArePlain();
    OneMoreRow([], Attr("size", EIGHT));
    OneMoreRow([] + [Attr("size", EIGHT)], Attr("colour", EIGHT[..7]));
    OneMoreRow([] + [Attr("size", EIGHT)] + [Attr("colour", EIGHT[..7])], Attr("weight", ["1"]));
    assert [] + [Attr("size", EIGHT)] == [Attr("size", EIGHT)];
  }

  lemma TwoRowsMultiply()
    ensures Combinations([Attr("size", EIGHT)] + [Attr("colour", EIGHT[..7])]) == 56
  {
    var one := [Attr("size", EIGHT)];
    assert one[..0] == [] && Combinations(one) == 8;
    assert (one + [Attr("colour", EIGHT[..7])])[..1] == one;
  }

  lemma {:induction false} LastRowKept(attrs: seq<Attr>)
    requires attrs != [] && Filled(attrs) && Combinations(attrs[..|attrs| - 1]) <= MAX_COMBOS
    ensures ValuesOf(Generated(attrs).0, attrs[|attrs| - 1].name) != []
  {
    var init, last := attrs[..|attrs| - 1], attrs[|attrs| - 1];
    var specs := Generated(attrs).0;
    CutExactly(init);
    ProductNotEmpty(attrs);
    assert specs[0] in Extend(Product(init), last);
    ExtendExactly(Product(init), last, specs[0]);
    NotMentioned(specs, last.name, 0);
  }

  lemma {:induction false} LastRowLost(attrs: seq<Attr>)
    requires attrs != [] && Filled(attrs) && Unique(Names(attrs)) && Combinations(attrs[..|attrs| - 1]) > MAX_COMBOS
    ensures ValuesOf(Generated(attrs).0, attrs[|attrs| - 1].name) == []
  {
    var init, last := attrs[..|attrs| - 1], attrs[|attrs| - 1];
    var specs := Generated(init).0;
    CutExactly(init);
    NamesInit(attrs);
    UniqueInit(Names(init), last.name);
    if ValuesOf(specs, last.name) != [] {
      MentionedSomewhere(specs, last.name);
      var l :| 0 <= l < |specs| && last.name in specs[l];
      GeneratedNames(init, specs[l], last.name);
    }
  }

  // ---------------------------------------------------------------------------------------------
  // Editing a saved product
  // ---------------------------------------------------------------------------------------------

  lemma {:induction false} SetSize(s: seq<Spec>)
    ensures |set x | x in s| <= |s|
    ensures Unique(s) ==> |set x | x in s| == |s|
  {
    if s != [] {
      var init, last := s[..|s| - 1], s[|s| - 1];
      SetSize(init);
      assert (set x | x in s) == (set x | x in init) + {last};
      assert Unique(s) ==> Unique(init);
    }
  }

  lemma {:induction false} ExtendUnique(combos: seq<Spec>, attr: Attr)
    requires Unique(combos) && Unique(attr.values)
    requires forall k :: 0 <= k < |combos| ==> attr.name !in combos[k]
    ensures Unique(Extend(combos, attr))
  {
    if combos != [] {
      var init, last := combos[..|combos| - 1], combos[|combos| - 1];
      var before, next := Extend(init, attr), Extended(last, attr);
      ExtendUnique(init, attr);
      forall i, j | 0 <= i < |before| && 0 <= j < |next| ensures before[i] != next[j] {
        ExtendExactly(init, attr, before[i]);
        var base :| base in init && Adds(base, attr, before[i]);
        var b :| 0 <= b < |init| && init[b] == base;
        assert combos[b] == base && combos[b] != last;
        StrippedBack(base, attr, before[i]);
        ExtendedExactly(last, attr, next[j]);
        StrippedBack(last, attr, next[j]);
      }
      forall i, j | 0 <= i < j < |next| ensures next[i] != next[j] {
        assert next[i][attr.name] == attr.values[i] && next[j][attr.name] == attr.values[j];
      }
    }
  }

  lemma StrippedBack(base: Spec, attr: Attr, spec: Spec)
    requires Adds(base, attr, spec) && attr.name !in base
    ensures spec - {attr.name} == base
  {
  }

  lemma {:induction false} ProductUnique(attrs: seq<Attr>)
    requires Unique(Names(attrs)) && forall k :: 0 <= k < |attrs| ==> Unique(attrs[k].values)
    ensures Unique(Product(attrs))
  {
    if attrs != [] {
      var init, last := attrs[..|attrs| - 1], attrs[|attrs| - 1];
      NamesInit(attrs);
      UniqueInit(Names(init), last.name);
      ProductUnique(init);
      forall k | 0 <= k < |Product(init)| ensures last.name !in Product(init)[k] {
        ProductExactly(init, Product(init)[k]);
      }
      ExtendUnique(Product(init), last);
    }
  }

  /** The same names, and under each name the same values. */
  ghost predicate SameChoices(a: seq<Attr>, b: seq<Attr>) {
    && (forall name :: name in Names(a) <==> name in Names(b))
    && (forall i, k :: 0 <= i < |a| && 0 <= k < |b| && a[i].name == b[k].name ==> forall v :: v in a[i].values <==> v in b[k].values)
  }

  lemma ChoosesBoth(a: seq<Attr>, b: seq<Attr>, spec: Spec)
    requires SameChoices(a, b) && Chooses(spec, a)
    ensures Chooses(spec, b)
  {
    forall k | 0 <= k < |b| ensures Picks(spec, b[k]) {
      assert Names(b)[k] in Names(a);
      var i :| 0 <= i < |a| && Names(a)[i] == b[k].name;
      assert a[i].name == b[k].name && Picks(spec, a[i]);
    }
  }

  lemma RecoveredChooses(attrs: seq<Attr>, out: seq<Attr>, spec: Spec)
    requires Recovered(attrs, out)
    ensures Chooses(spec, out) <==> Chooses(spec, attrs)
  {
    assert SameChoices(out, attrs) && SameChoices(attrs, out);
    if Chooses(spec, out) {
      ChoosesBoth(out, attrs, spec);
    }
    if Chooses(spec, attrs) {
      ChoosesBoth(attrs, out, spec);
    }
  }

  /** Opening a saved product for editing and generating again, with nothing changed, gives exactly the
      combinations the product had, each once and none cut off. */
  lemma {:induction false} ReloadRegenerates(rows: seq<Row>, out: seq<Attr>)
    requires var attrs := Understood(rows); Unique(Names(attrs)) && Combinations(attrs) <= MAX_COMBOS
    requires Groups(Parsed(Stored(Generated(Understood(rows)).0)), out)
    ensures var (before, again) := (Generated(Understood(rows)).0, Generated(Understood(Reloaded(out))).0);
      Unique(again) && forall spec :: spec in again <==> spec in before
  {
    var attrs := Understood(rows);
    UnderstoodGood(rows);
    RoundTrip(attrs, out);
    CompleteExactly(attrs);
    RecoveredGood(attrs, out);
    UnderstoodReloaded(out);
    ProductUnique(out);
    forall spec ensures spec in Product(out) <==> spec in Product(attrs) {
      ProductExactly(out, spec);
      ProductExactly(attrs, spec);
      RecoveredChooses(attrs, out, spec);
    }
    SetSize(Product(out));
    SetSize(Product(attrs));
    assert (set x | x in Product(out)) == (set x | x in Product(attrs));
    ProductSize(attrs);
    ProductSize(out);
    CompleteExactly(out);
  }

  lemma RecoveredGood(attrs: seq<Attr>, out: seq<Attr>)
    requires AllGood(attrs) && Recovered(attrs, out)
    ensures AllGood(out) && forall i :: 0 <= i < |out| ==> Unique(out[i].values)
  {
    forall i | 0 <= i < |out| ensures Good(out[i]) && AllPlain(out[i].values) && Unique(out[i].values) {
      assert Names(out)[i] in Names(attrs);
      var k :| 0 <= k < |attrs| && Names(attrs)[k] == out[i].name;
      DedupUnique(attrs[k].values);
      assert Good(attrs[k]) && AllPlain(attrs[k].values);
      forall j | 0 <= j < |out[i].values| ensures Plain(out[i].values[j]) {
        assert out[i].values[j] in attrs[k].values;
      }
    }
  }
}
