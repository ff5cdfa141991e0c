/** JSON documents as Python dictionaries hold them, and the JSON values they denote. */
module Documents {

  /** A parsed document. A dictionary keeps the order of its entries. */
  datatype Doc =
    | Null
    | Bool(flag: bool)
    | Num(number: real)
    | Str(text: string)
    | Arr(elems: seq<Doc>)
    | Obj(entries: seq<Entry>)

  datatype Entry = Entry(key: string, value: Doc)

  /** A JSON value: what a document stands for when the order of keys is forgotten. */
  datatype Value =
    | VNull
    | VBool(flag: bool)
    | VNum(number: real)
    | VStr(text: string)
    | VArr(elems: seq<Value>)
    | VObj(fields: map<string, Value>)

  /** The position of the entry with the given key, or the number of entries when there is none. */
  function IndexOf(entries: seq<Entry>, key: string): (r: nat)
    ensures r <= |entries|
    ensures r < |entries| ==> entries[r].key == key
    ensures forall i | 0 <= i < r :: entries[i].key != key
  {
    if entries == [] || entries[0].key == key then 0
    else 1 + IndexOf(entries[1..], key)
  }

  predicate Has(d: Doc, key: string) {
    d.Obj? && IndexOf(d.entries, key) < |d.entries|
  }

  function At(d: Doc, key: string): (r: Doc)
    requires Has(d, key)
    ensures r < d
  {
    d.entries[IndexOf(d.entries, key)].value
  }

  /** `d.get(key)`: an absent key reads as null. */
  function Get(d: Doc, key: string): (r: Doc) {
    if Has(d, key) then At(d, key) else Null
  }

  /** Every dictionary inside the document has distinct keys. */
  predicate Keyed(d: Doc) {
    match d
    case Arr(elems) => forall i | 0 <= i < |elems| :: Keyed(elems[i])
    case Obj(entries) =>
      && (forall i, j | 0 <= i < j < |entries| :: entries[i].key != entries[j].key)
      && (forall i | 0 <= i < |entries| :: Keyed(entries[i].value))
    case _ => true
  }

  type Document = d: Doc | Keyed(d) witness Null

  function Denote(d: Doc): Value {
    match d
    case Null => VNull
    case Bool(flag) => VBool(flag)
    case Num(number) => VNum(number)
    case Str(text) => VStr(text)
    case Arr(elems) => VArr(seq(|elems|, i requires 0 <= i < |elems| => Denote(elems[i])))
    case Obj(entries) => VObj(DenoteEntries(entries))
  }

  function DenoteEntries(entries: seq<Entry>): map<string, Value> {
    if entries == [] then map[]
    else DenoteEntries(entries[1..])[entries[0].key := Denote(entries[0].value)]
  }

  lemma {:induction false} DenoteLookup(entries: seq<Entry>, key: string)
    ensures key in DenoteEntries(entries) <==> IndexOf(entries, key) < |entries|
    ensures key in DenoteEntries(entries) ==>
              DenoteEntries(entries)[key] == Denote(entries[IndexOf(entries, key)].value)
  {
    if entries != [] && entries[0].key != key {
      DenoteLookup(entries[1..], key);
    }
  }

  /** Documents with the same value have the same keys, with values that are again the same. */
  lemma SameValueLookup(a: Doc, b: Doc, key: string)
    requires Denote(a) == Denote(b)
    ensures Has(a, key) <==> Has(b, key)
    ensures Denote(Get(a, key)) == Denote(Get(b, key))
  {
    if a.Obj? {
      DenoteLookup(a.entries, key);
      DenoteLookup(b.entries, key);
    }
  }

  /** Python's `==` does not tell True from 1 or False from 0; this maps equal values to one value. */
  function Loosened(v: Value): Value {
    match v
    case VBool(flag) => VNum(if flag then 1.0 else 0.0)
    case VArr(elems) => VArr(seq(|elems|, i requires 0 <= i < |elems| => Loosened(elems[i])))
    case VObj(fields) => VObj(map key | key in fields :: Loosened(fields[key]))
    case _ => v
  }

  function NumericValue(v: Value): real {
    match v
    case VBool(flag) => if flag then 1.0 else 0.0
    case VNum(number) => number
    case _ => 0.0
  }

  /** Python's `==` on JSON values. */
  predicate PythonEqual(v: Value, w: Value)
    decreases v
  {
    match v
    case VNull => w.VNull?
    case VBool(_) => (w.VBool? || w.VNum?) && NumericValue(v) == NumericValue(w)
    case VNum(_) => (w.VBool? || w.VNum?) && NumericValue(v) == NumericValue(w)
    case VStr(text) => w.VStr? && w.text == text
    case VArr(elems) =>
      w.VArr? && |w.elems| == |elems| && forall i | 0 <= i < |elems| :: PythonEqual(elems[i], w.elems[i])
    case VObj(fields) =>
      w.VObj? && w.fields.Keys == fields.Keys && forall key | key in fields :: PythonEqual(fields[key], w.fields[key])
  }

  /** Values are loosened to one value exactly when Python finds them equal. */
  lemma {:induction false} LoosenedExact(v: Value, w: Value)
    ensures Loosened(v) == Loosened(w) <==> PythonEqual(v, w)
    decreases v
  {
    if v.VArr? && w.VArr? && |v.elems| == |w.elems| {
      forall i | 0 <= i < |v.elems|
        ensures Loosened(v.elems[i]) == Loosened(w.elems[i]) <==> PythonEqual(v.elems[i], w.elems[i])
      {
        LoosenedExact(v.elems[i], w.elems[i]);
      }
      ArraysLoosened(v, w);
    } else if v.VArr? && w.VArr? {
      assert |Loosened(v).elems| == |v.elems| && |Loosened(w).elems| == |w.elems|;
    } else if v.VObj? && w.VObj? {
      forall key | key in v.fields && key in w.fields
        ensures Loosened(v.fields[key]) == Loosened(w.fields[key]) <==> PythonEqual(v.fields[key], w.fields[key])
      {
        LoosenedExact(v.fields[key], w.fields[key]);
      }
      ObjectsLoosened(v, w);
    }
  }

  lemma ArraysLoosened(v: Value, w: Value)
    requires v.VArr? && w.VArr? && |v.elems| == |w.elems|
    ensures Loosened(v) == Loosened(w) <==>
            forall i | 0 <= i < |v.elems| :: Loosened(v.elems[i]) == Loosened(w.elems[i])
  {
    if Loosened(v) == Loosened(w) {
      forall i | 0 <= i < |v.elems| ensures Loosened(v.elems[i]) == Loosened(w.elems[i]) {
        assert Loosened(v).elems[i] == Loosened(w).elems[i];
      }
    }
    if forall i | 0 <= i < |v.elems| :: Loosened(v.elems[i]) == Loosened(w.elems[i]) {
      assert Loosened(v).elems == Loosened(w).elems;
    }
  }

  lemma ObjectsLoosened(v: Value, w: Value)
    requires v.VObj? && w.VObj?
    ensures Loosened(v) == Loosened(w) <==>
            && v.fields.Keys == w.fields.Keys
            && forall key | key in v.fields && key in w.fields :: Loosened(v.fields[key]) == Loosened(w.fields[key])
  {
    assert Loosened(v).fields.Keys == v.fields.Keys && Loosened(w).fields.Keys == w.fields.Keys;
    if Loosened(v) == Loosened(w) {
      forall key | key in v.fields ensures Loosened(v.fields[key]) == Loosened(w.fields[key]) {
        assert Loosened(v).fields[key] == Loosened(w).fields[key];
      }
    }
  }

  /** `v in values` in Python. */
  predicate LooselyIn(v: Value, values: seq<Value>) {
    exists i | 0 <= i < |values| :: Loosened(values[i]) == Loosened(v)
  }
}
