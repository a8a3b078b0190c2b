/** Tagged struct types, their values, and how gopkg.in/yaml.v3 prints and parses them
    at the level of document nodes. */
module Reflect {
  import opened Stages

  datatype Type = TString | TInt | TBool | TStruct(fields: seq<Field>) | TPointer(elem: Type) | TOther

  /** A field's type and struct tag. `yaml` and `enum` are already split at their
      commas; an absent key is the empty list or string. */
  datatype Field = Field(typ: Type, yaml: seq<string>, enum: seq<string>, pattern: string, min: string, max: string,
                         default: string, required: string)

  datatype Value = VString(s: string) | VInt(i: int) | VBool(b: bool)
    | VStruct(fields: seq<Value>) | VPointer(target: Option<Value>)

  datatype Node = NNull | NString(s: string) | NInt(i: int) | NBool(b: bool) | NMap(entries: seq<(string, Node)>)

  /** Fields named "-", and fields without a yaml name. The schema generator passes over
      both; yaml.v3 would print the latter under their lower-cased names, so the printer
      below is for types that tag every field, as the config's do. */
  predicate Skipped(f: Field) { f.yaml == [] || f.yaml == ["-"] }

  function Name(f: Field): string {
    if f.yaml == [] then "" else f.yaml[0]
  }

  predicate OmitEmpty(f: Field) {
    f.yaml != [] && "omitempty" in f.yaml[1..]
  }

  // ----- values of a type -----

  predicate HasType(t: Type, v: Value) {
    match t
    case TString => v.VString?
    case TInt => v.VInt?
    case TBool => v.VBool?
    case TStruct(fields) => v.VStruct? && |v.fields| == |fields| && FieldsHaveType(fields, v.fields, |fields|)
    case TPointer(elem) => v.VPointer? && (v.target.Some? ==> HasType(elem, v.target.value))
    case TOther => false
  }

  predicate FieldsHaveType(fields: seq<Field>, vs: seq<Value>, n: nat)
    requires n <= |fields| && |vs| == |fields|
    decreases fields, n
  {
    n == 0 || (FieldsHaveType(fields, vs, n - 1) && HasType(fields[n - 1].typ, vs[n - 1]))
  }

  /** The value omitempty leaves out: yaml.v3 looks into structs but not through
      pointers. */
  predicate IsZero(v: Value) {
    match v
    case VString(s) => s == ""
    case VInt(i) => i == 0
    case VBool(b) => !b
    case VStruct(vs) => forall x | x in vs :: IsZero(x)
    case VPointer(target) => target.None?
  }

  function ZeroOf(t: Type): Value {
    match t
    case TString => VString("")
    case TInt => VInt(0)
    case TBool => VBool(false)
    case TStruct(fields) => VStruct(ZeroFields(fields, |fields|))
    case TPointer(_) => VPointer(None)
    case TOther => VPointer(None)
  }

  function ZeroFields(fields: seq<Field>, n: nat): (r: seq<Value>)
    requires n <= |fields|
    ensures |r| == n
    decreases fields, n
  {
    if n == 0 then [] else ZeroFields(fields, n - 1) + [ZeroOf(fields[n - 1].typ)]
  }

  lemma {:induction false} ZeroIsUnique(t: Type, v: Value)
    requires HasType(t, v) && IsZero(v)
    ensures v == ZeroOf(t)
    decreases t, 0
  {
    if t.TStruct? {
      ZeroFieldsAreUnique(t.fields, v.fields, |t.fields|);
      assert v.fields[..|t.fields|] == v.fields;
    }
  }

  lemma {:induction false} ZeroFieldsAreUnique(fields: seq<Field>, vs: seq<Value>, n: nat)
    requires n <= |fields| && |vs| == |fields| && FieldsHaveType(fields, vs, n)
    requires forall x | x in vs :: IsZero(x)
    ensures vs[..n] == ZeroFields(fields, n)
    decreases fields, n
  {
    if n > 0 {
      ZeroFieldsAreUnique(fields, vs, n - 1);
      assert vs[n - 1] in vs;
      ZeroIsUnique(fields[n - 1].typ, vs[n - 1]);
    }
  }

  // ----- printing -----

  predicate Printed(f: Field, v: Value) {
    !Skipped(f) && !(OmitEmpty(f) && IsZero(v))
  }

  function Encode(t: Type, v: Value): Node
    requires HasType(t, v)
    decreases t, 0
  {
    match t
    case TString => NString(v.s)
    case TInt => NInt(v.i)
    case TBool => NBool(v.b)
    case TStruct(fields) => NMap(EncodeFields(fields, v.fields, |fields|))
    case TPointer(elem) => if v.target.None? then NNull else Encode(elem, v.target.value)
  }

  function EncodeFields(fields: seq<Field>, vs: seq<Value>, n: nat): seq<(string, Node)>
    requires n <= |fields| && |vs| == |fields| && FieldsHaveType(fields, vs, n)
    decreases fields, n
  {
    if n == 0 then []
    else
      EncodeFields(fields, vs, n - 1) +
      (if Printed(fields[n - 1], vs[n - 1]) then [(Name(fields[n - 1]), Encode(fields[n - 1].typ, vs[n - 1]))] else [])
  }

  // ----- parsing -----

  function Lookup(entries: seq<(string, Node)>, key: string): Option<Node> {
    if entries == [] then None
    else if entries[|entries| - 1].0 == key then Some(entries[|entries| - 1].1)
    else Lookup(entries[..|entries| - 1], key)
  }

  predicate DistinctKeys(entries: seq<(string, Node)>) {
    forall i, j | 0 <= i < j < |entries| :: entries[i].0 != entries[j].0
  }

  /** None is a decoding error. Unknown keys are ignored, absent ones leave the zero
      value, and null does too. */
  function Decode(t: Type, n: Node): Option<Value>
    decreases t, 0
  {
    if n.NNull? then Some(ZeroOf(t))
    else match t
      case TString => if n.NString? then Some(VString(n.s)) else None
      case TInt => if n.NInt? then Some(VInt(n.i)) else None
      case TBool => if n.NBool? then Some(VBool(n.b)) else None
      case TStruct(fields) =>
        if !n.NMap? || !DistinctKeys(n.entries) then None
        else
          var vs := DecodeFields(fields, n.entries, |fields|);
          if vs.None? then None else Some(VStruct(vs.value))
      case TPointer(elem) =>
        var v := Decode(elem, n);
        if v.None? then None else Some(VPointer(v))
      case TOther => None
  }

  function DecodeFields(fields: seq<Field>, entries: seq<(string, Node)>, n: nat): Option<seq<Value>>
    requires n <= |fields|
    decreases fields, n
  {
    if n == 0 then Some([])
    else
      var front, v := DecodeFields(fields, entries, n - 1), DecodeField(fields[n - 1], entries);
      if front.None? || v.None? then None else Some(front.value + [v.value])
  }

  function DecodeField(f: Field, entries: seq<(string, Node)>): Option<Value>
    decreases f, 0
  {
    var found := if Skipped(f) then None else Lookup(entries, Name(f));
    if found.None? then Some(ZeroOf(f.typ)) else Decode(f.typ, found.value)
  }

  // ----- the round trip -----

  predicate DistinctNames(fields: seq<Field>) {
    forall i, j | 0 <= i < j < |fields| && !Skipped(fields[i]) && !Skipped(fields[j]) ::
           Name(fields[i]) != Name(fields[j])
  }

  /** Types that survive a round trip: distinct names, every field printed or zero, and
      no pointer to a pointer. */
  predicate Regular(t: Type) {
    match t
    case TStruct(fields) => DistinctNames(fields) && FieldsRegular(fields, |fields|)
    case TPointer(elem) => !elem.TPointer? && Regular(elem)
    case TOther => false
    case _ => true
  }

  predicate FieldsRegular(fields: seq<Field>, n: nat)
    requires n <= |fields|
    decreases fields, n
  {
    n == 0 || (FieldsRegular(fields, n - 1) && !Skipped(fields[n - 1]) && Regular(fields[n - 1].typ))
  }

  lemma LookupAppend(entries: seq<(string, Node)>, e: (string, Node), key: string)
    ensures Lookup(entries + [e], key) == if e.0 == key then Some(e.1) else Lookup(entries, key)
  {
    assert (entries + [e])[..|entries|] == entries;
  }

  lemma {:induction false} HaveTypePrefix(fields: seq<Field>, vs: seq<Value>, n: nat, m: nat)
    requires m <= n <= |fields| == |vs| && FieldsHaveType(fields, vs, n)
    ensures FieldsHaveType(fields, vs, m)
    decreases n
  {
    hide HasType;
    if m < n {
      HaveTypePrefix(fields, vs, n - 1, m);
    }
  }

  predicate IsPrintedName(fields: seq<Field>, vs: seq<Value>, n: nat, key: string)
    requires n <= |fields| == |vs|
  {
    exists i :: 0 <= i < n && Printed(fields[i], vs[i]) && Name(fields[i]) == key
  }

  /** Every key printed is the name of a printed field, once. */
  lemma {:induction false} EncodedKeys(fields: seq<Field>, vs: seq<Value>, n: nat)
    requires n <= |fields| == |vs| && FieldsHaveType(fields, vs, n) && DistinctNames(fields)
    ensures var es := EncodeFields(fields, vs, n);
            && (forall k | 0 <= k < |es| :: IsPrintedName(fields, vs, n, es[k].0))
            && DistinctKeys(es)
  {
    hide Encode, HasType, IsZero;
    if n > 0 {
      EncodedKeys(fields, vs, n - 1);
      var es, front := EncodeFields(fields, vs, n), EncodeFields(fields, vs, n - 1);
      forall k | 0 <= k < |es| ensures IsPrintedName(fields, vs, n, es[k].0) {
        if k < |front| {
          assert IsPrintedName(fields, vs, n - 1, front[k].0);
          var i :| 0 <= i < n - 1 && Printed(fields[i], vs[i]) && Name(fields[i]) == front[k].0;
        }
      }
      forall k | 0 <= k < |front| ensures Printed(fields[n - 1], vs[n - 1]) ==> front[k].0 != Name(fields[n - 1]) {
        assert IsPrintedName(fields, vs, n - 1, front[k].0);
      }
    }
  }

  /** A printed field is found under its name, and no other field is. */
  lemma {:induction false} EncodedLookup(fields: seq<Field>, vs: seq<Value>, n: nat, i: nat)
    requires n <= |fields| == |vs| && FieldsHaveType(fields, vs, |fields|) && DistinctNames(fields)
    requires i < |fields| && !Skipped(fields[i])
    ensures FieldsHaveType(fields, vs, n) && HasType(fields[i].typ, vs[i])
    ensures Lookup(EncodeFields(fields, vs, n), Name(fields[i])) ==
            if i < n && Printed(fields[i], vs[i]) then Some(Encode(fields[i].typ, vs[i])) else None
    decreases n
  {
    hide Encode, HasType, IsZero;
    HaveTypePrefix(fields, vs, |fields|, n);
    FieldAt(fields, vs, |fields|, i);
    if n > 0 {
      EncodedLookup(fields, vs, n - 1, i);
      var es := EncodeFields(fields, vs, n - 1);
      if Printed(fields[n - 1], vs[n - 1]) {
        LookupAppend(es, (Name(fields[n - 1]), Encode(fields[n - 1].typ, vs[n - 1])), Name(fields[i]));
      }
      assert es + [] == es;
    }
  }

  /** A key that is no field's name is not printed. */
  lemma {:induction false} EncodedForeign(fields: seq<Field>, vs: seq<Value>, n: nat, key: string)
    requires n <= |fields| == |vs| && FieldsHaveType(fields, vs, n)
    requires forall i | 0 <= i < |fields| && !Skipped(fields[i]) :: Name(fields[i]) != key
    ensures Lookup(EncodeFields(fields, vs, n), key) == None
  {
    hide Encode, HasType, IsZero;
    if n > 0 {
      EncodedForeign(fields, vs, n - 1, key);
      var es := EncodeFields(fields, vs, n - 1);
      if Printed(fields[n - 1], vs[n - 1]) {
        LookupAppend(es, (Name(fields[n - 1]), Encode(fields[n - 1].typ, vs[n - 1])), key);
      }
      assert es + [] == es;
    }
  }

  /** Whether `entries` answers every field name as the printed struct would. */
  ghost predicate AnswersLike(fields: seq<Field>, vs: seq<Value>, entries: seq<(string, Node)>)
    requires |vs| == |fields| && FieldsHaveType(fields, vs, |fields|)
  {
    forall i | 0 <= i < |fields| && !Skipped(fields[i]) ::
      Lookup(entries, Name(fields[i])) == Lookup(EncodeFields(fields, vs, |fields|), Name(fields[i]))
  }

  /** Printing loses nothing: parsing what a regular type prints gives the value back,
      nil and empty blocks and omitted zeros included. */
  lemma {:induction false} DecodeOfEncode(t: Type, v: Value)
    requires HasType(t, v) && Regular(t)
    ensures Decode(t, Encode(t, v)) == Some(v)
    ensures !t.TPointer? ==> !Encode(t, v).NNull?
    decreases t, 1, 0
  {
    match t
    case TStruct(fields) =>
      EncodedKeys(fields, v.fields, |fields|);
      DecodeOfEncodeFields(fields, v.fields, EncodeFields(fields, v.fields, |fields|), |fields|);
      assert v.fields[..|fields|] == v.fields;
    case TPointer(elem) =>
      if v.target.Some? {
        DecodeOfEncode(elem, v.target.value);
      }
    case _ =>
  }

  lemma {:induction false} DecodeOfEncodeFields(
    fields: seq<Field>, vs: seq<Value>, entries: seq<(string, Node)>, n: nat)
    requires n <= |fields| == |vs| && FieldsHaveType(fields, vs, |fields|)
    requires DistinctNames(fields) && FieldsRegular(fields, |fields|)
    requires AnswersLike(fields, vs, entries)
    ensures DecodeFields(fields, entries, n) == Some(vs[..n])
    decreases fields, 0, n
  {
    hide DecodeField, HasType, Regular, EncodeFields;
    if n > 0 {
      DecodeOfEncodeFields(fields, vs, entries, n - 1);
      FieldAt(fields, vs, |fields|, n - 1);
      DecodeOfEncodeField(fields, vs, entries, n - 1);
      assert vs[..n] == vs[..n - 1] + [vs[n - 1]];
    }
  }

  lemma {:induction false} DecodeOfEncodeField(fields: seq<Field>, vs: seq<Value>, entries: seq<(string, Node)>, i: nat)
    requires i < |fields| == |vs| && FieldsHaveType(fields, vs, |fields|)
    requires DistinctNames(fields) && AnswersLike(fields, vs, entries)
    requires !Skipped(fields[i]) && Regular(fields[i].typ) && HasType(fields[i].typ, vs[i])
    ensures DecodeField(fields[i], entries) == Some(vs[i])
    decreases fields, 0, 0
  {
    hide HasType, Regular, Encode, Decode, IsZero, ZeroOf, EncodeFields;
    EncodedLookup(fields, vs, |fields|, i);
    if Printed(fields[i], vs[i]) {
      assert fields[i].typ < fields[i];
      DecodeOfEncode(fields[i].typ, vs[i]);
    } else {
      ZeroIsUnique(fields[i].typ, vs[i]);
    }
  }

  lemma {:induction false} FieldAt(fields: seq<Field>, vs: seq<Value>, n: nat, i: nat)
    requires i < n <= |fields| == |vs|
    ensures FieldsHaveType(fields, vs, n) ==> HasType(fields[i].typ, vs[i])
    ensures FieldsRegular(fields, n) ==> !Skipped(fields[i]) && Regular(fields[i].typ)
  {
    if i < n - 1 {
      FieldAt(fields, vs, n - 1, i);
    }
  }

  /** A pointer to a pointer would not survive: the inner nil prints as null, which
      reads back as the outer nil. */
  lemma DoublePointerDoesNotRoundTrip()
    ensures var t, v := TPointer(TPointer(TInt)), VPointer(Some(VPointer(None)));
            HasType(t, v) && Decode(t, Encode(t, v)) == Some(VPointer(None))
  {
  }
}
