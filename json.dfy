/**
 * `json.dumps` over the model's values. Number rendering for floats and the
 * quoting of string literals are platform functions; everything else
 * (`null`, booleans, ints, the separators, the key order) is written out.
 * Python dictionaries are modelled as maps, so every object is rendered with
 * its keys in ascending code-point order, as `sort_keys=True` does.
 */
module Json {
  import opened Wrappers
  import opened Strings
  import opened PyValue
  import opened Runtime

  /** Python's `<` on strings: lexicographic by code point. */
  predicate StrLt(a: string, b: string)
    decreases |a|
  {
    if b == [] then false
    else if a == [] then true
    else if a[0] != b[0] then a[0] < b[0]
    else StrLt(a[1..], b[1..])
  }

  lemma {:induction false} StrLtIrreflexive(a: string)
    ensures !StrLt(a, a)
    decreases |a|
  {
    if a != [] {
      StrLtIrreflexive(a[1..]);
    }
  }

  lemma {:induction false} StrLtTransitive(a: string, b: string, c: string)
    requires StrLt(a, b) && StrLt(b, c)
    ensures StrLt(a, c)
    decreases |a|
  {
    if a != [] && a[0] == b[0] && b[0] == c[0] {
      StrLtTransitive(a[1..], b[1..], c[1..]);
    }
  }

  lemma {:induction false} StrLtTotal(a: string, b: string)
    requires a != b
    ensures StrLt(a, b) || StrLt(b, a)
    decreases |a|
  {
    if a != [] && b != [] && a[0] == b[0] {
      assert a == [a[0]] + a[1..];
      assert b == [b[0]] + b[1..];
      StrLtTotal(a[1..], b[1..]);
    }
  }

  lemma StrLtAsymmetric()
    ensures forall a, b :: StrLt(a, b) ==> !StrLt(b, a)
  {
    forall a, b | StrLt(a, b)
      ensures !StrLt(b, a)
    {
      if StrLt(b, a) {
        StrLtTransitive(a, b, a);
        StrLtIrreflexive(a);
      }
    }
  }

  /** `k` comes first among `ks`. */
  predicate IsLeast(k: string, ks: set<string>) {
    k in ks && forall j :: j in ks && j != k ==> StrLt(k, j)
  }

  lemma {:induction false} LeastExists(ks: set<string>)
    requires ks != {}
    ensures exists k :: IsLeast(k, ks)
    decreases |ks|
  {
    var x :| x in ks;
    if ks == {x} {
      assert IsLeast(x, ks);
    } else {
      LeastExists(ks - {x});
      var y :| IsLeast(y, ks - {x});
      StrLtTotal(x, y);
      if StrLt(x, y) {
        forall j | j in ks && j != x
          ensures StrLt(x, j)
        {
          if j != y {
            StrLtTransitive(x, y, j);
          }
        }
        assert IsLeast(x, ks);
      } else {
        assert IsLeast(y, ks);
      }
    }
  }

  /** The first of `ks` in code-point order. */
  function Least(ks: set<string>): (k: string)
    requires ks != {}
    ensures IsLeast(k, ks)
  {
    LeastExists(ks);
    StrLtAsymmetric();
    var k :| IsLeast(k, ks);
    k
  }

  /** The keys of `ks`, each once, in increasing order. */
  predicate ListsInOrder(r: seq<string>, ks: set<string>) {
    && |r| == |ks|
    && (forall i :: 0 <= i < |r| ==> r[i] in ks)
    && (forall k :: k in ks ==> k in r)
    && (forall i, j :: 0 <= i < j < |r| ==> StrLt(r[i], r[j]))
  }

  /** The least key followed by the others in order lists them all in order. */
  lemma LeastFirst(k: string, ks: set<string>, rest: seq<string>)
    requires IsLeast(k, ks) && ListsInOrder(rest, ks - {k})
    ensures ListsInOrder([k] + rest, ks)
  {
    assert forall i :: 0 <= i < |rest| ==> StrLt(k, rest[i]);
  }

  /** The keys of a dictionary in the order `sort_keys=True` writes them. */
  function SortedKeys(ks: set<string>): (r: seq<string>)
    ensures ListsInOrder(r, ks)
    decreases |ks|
  {
    if ks == {} then []
    else
      var k := Least(ks);
      var rest := SortedKeys(ks - {k});
      LeastFirst(k, ks, rest);
      [k] + rest
  }

  /** The `separators` argument: `(",", ":")` when compact, `(", ", ": ")` by default. */
  datatype Style = Style(compact: bool, ensureAscii: bool) {
    function ItemSeparator(): string {
      if compact then "," else ", "
    }
    function KeySeparator(): string {
      if compact then ":" else ": "
    }
  }

  /** The style the signed payload uses: compact separators, `ensure_ascii=True`. */
  const CompactStyle := Style(true, true)

  /** All renderings, or `None` as soon as one failed. */
  function AllRendered(parts: seq<Option<string>>): (r: Option<seq<string>>)
    ensures r.Some? <==> forall i :: 0 <= i < |parts| ==> parts[i].Some?
    ensures r.Some? ==> |r.value| == |parts| && forall i :: 0 <= i < |parts| ==> r.value[i] == parts[i].value
    decreases |parts|
  {
    if parts == [] then Some([])
    else if parts[0].None? then None
    else
      match AllRendered(parts[1..])
      case None => None
      case Some(rest) => Some([parts[0].value] + rest)
  }

  /** `json.dumps(v, ...)`; `None` where it raises `TypeError` (a `datetime` inside). */
  function Dumps(v: Value, st: Style, p: Platform): (r: Option<string>)
    decreases v
  {
    match v
    case Null => Some("null")
    case Bool(b) => Some(if b then "true" else "false")
    case Int(i) => Some(IntToString(i))
    case Float(f) => Some(p.floatRepr(f))
    case Str(s) => Some(p.quote(s, st.ensureAscii))
    case Time(_) => None
    case List(items) =>
      var parts := seq(|items|, i requires 0 <= i < |items| => Dumps(items[i], st, p));
      (match AllRendered(parts)
       case None => None
       case Some(texts) => Some("[" + Join(texts, st.ItemSeparator()) + "]"))
    case Object(fields) =>
      var keys := SortedKeys(fields.Keys);
      var parts := seq(|keys|, i requires 0 <= i < |keys| => Dumps(fields[keys[i]], st, p));
      match AllRendered(parts)
      case None => None
      case Some(texts) =>
        var members := seq(|keys|, i requires 0 <= i < |keys| => p.quote(keys[i], st.ensureAscii) + st.KeySeparator() + texts[i]);
        Some("{" + Join(members, st.ItemSeparator()) + "}")
  }

  /** `json.dumps` succeeds exactly on values without a `datetime` inside. */
  lemma {:induction false} DumpsDefinedIffJson(v: Value, st: Style, p: Platform)
    ensures Dumps(v, st, p).Some? <==> IsJson(v)
    decreases v, 1
  {
    match v
    case List(items) => ListDefinedIffJson(items, st, p);
    case Object(fields) => ObjectDefinedIffJson(fields, st, p);
    case _ =>
  }

  lemma {:induction false} ListDefinedIffJson(items: seq<Value>, st: Style, p: Platform)
    ensures Dumps(List(items), st, p).Some? <==> IsJson(List(items))
    decreases List(items), 0
  {
    var parts := seq(|items|, i requires 0 <= i < |items| => Dumps(items[i], st, p));
    forall i | 0 <= i < |items|
      ensures parts[i].Some? <==> IsJson(items[i])
    {
      DumpsDefinedIffJson(items[i], st, p);
    }
    assert Dumps(List(items), st, p).Some? <==> AllRendered(parts).Some?;
  }

  lemma {:induction false} ObjectDefinedIffJson(fields: map<string, Value>, st: Style, p: Platform)
    ensures Dumps(Object(fields), st, p).Some? <==> IsJson(Object(fields))
    decreases Object(fields), 0
  {
    var keys := SortedKeys(fields.Keys);
    var parts := seq(|keys|, i requires 0 <= i < |keys| => Dumps(fields[keys[i]], st, p));
    forall i | 0 <= i < |keys|
      ensures parts[i].Some? <==> IsJson(fields[keys[i]])
    {
      DumpsDefinedIffJson(fields[keys[i]], st, p);
    }
    assert Dumps(Object(fields), st, p).Some? <==> AllRendered(parts).Some?;
    if !IsJson(Object(fields)) {
      var k :| k in fields && !IsJson(fields[k]);
      var i :| 0 <= i < |keys| && keys[i] == k;
    }
  }

  /**
   * The signed payload: the object serialised with sorted keys, compact
   * separators and ASCII escapes; `None` where `json.dumps` raises.
   */
  function CanonicalPayload(m: map<string, Value>, p: Platform): (r: Option<string>)
  {
    Dumps(Object(m), CompactStyle, p)
  }

  /** The payload can be built exactly when no field holds a `datetime`. */
  lemma CanonicalPayloadDefinedIff(m: map<string, Value>, p: Platform)
    ensures CanonicalPayload(m, p).Some? <==> forall k :: k in m ==> IsJson(m[k])
  {
    DumpsDefinedIffJson(Object(m), CompactStyle, p);
  }

  /** A serialised dictionary is wrapped in braces. */
  lemma ObjectBraces(fields: map<string, Value>, st: Style, p: Platform)
    requires Dumps(Object(fields), st, p).Some?
    ensures var text := Dumps(Object(fields), st, p).value;
      |text| >= 2 && text[0] == '{' && text[|text| - 1] == '}'
  {
  }
}
