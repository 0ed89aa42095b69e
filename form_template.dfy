/** The state of the data-driven `FormTemplate`: the initial form data built
    from the field list, the single-field update every control reports
    through, submission, and whether a radio button shows as checked. */
module FormTemplate {
  import opened JsObjects

  /** The JavaScript values a field or the form data can hold; dates, option
      arrays and other objects are opaque references. */
  datatype Value = Undefined | Null | Bool(b: bool) | Num(n: int) | Str(s: string) | Obj(ref: nat)

  predicate Truthy(v: Value) {
    match v
    case Undefined => false
    case Null => false
    case Bool(b) => b
    case Num(n) => n != 0
    case Str(s) => s != []
    case Obj(_) => true
  }

  /** JavaScript's `a || b`. */
  function Or(a: Value, b: Value): (r: Value)
    ensures Truthy(a) ==> r == a
    ensures !Truthy(a) ==> r == b
  {
    if Truthy(a) then a else b
  }

  datatype FieldKind =
    | TextInput | Email | Password | Number | Textarea | Select
    | Checkbox | Toggle | Radio | ComboBox | MultiSelect | DatePicker

  /** A field definition; `checked` is absent or a boolean, `radioGroup`
      matters only for radio fields. */
  datatype Field = Field(kind: FieldKind, name: string, value: Value, checked: Option<bool>, radioGroup: string)

  datatype Option<T> = None | Some(value: T)

  type FormData = map<string, Value>

  /** The write a field contributes to the initial data, if any: a checkbox
      or toggle its `checked` flag (false when absent), a checked radio its
      value under its group, an unchecked radio nothing, and any other field
      its value, a falsy one replaced by the empty string. */
  function InitialWrite(f: Field): Option<(string, Value)> {
    if f.kind == Checkbox || f.kind == Toggle then Some((f.name, Bool(f.checked == Some(true))))
    else if f.kind == Radio then (if f.checked == Some(true) then Some((f.radioGroup, f.value)) else None)
    else Some((f.name, Or(f.value, Str(""))))
  }

  predicate WritesKey(f: Field, k: string) {
    InitialWrite(f).Some? && InitialWrite(f).value.0 == k
  }

  /** `obj[key] = value` on a plain object: the name `__proto__` reaches the
      prototype setter and adds no own key; any other key is set. */
  function Assign(data: FormData, key: string, value: Value): (r: FormData)
    ensures r.Keys == if key == ProtoKey then data.Keys else data.Keys + {key}
    ensures key != ProtoKey ==> r[key] == value
    ensures forall k :: k in data && k != key ==> r[k] == data[k]
  {
    if key == ProtoKey then data else data[key := value]
  }

  /** The initial data of a field list: the fields' writes in order. No field
      can give it an own `__proto__` key. */
  function InitialData(fields: seq<Field>): (r: FormData)
    ensures ProtoKey !in r
  {
    if fields == [] then map[]
    else
      var prev := InitialData(fields[..|fields| - 1]);
      match InitialWrite(fields[|fields| - 1])
      case None => prev
      case Some(w) => Assign(prev, w.0, w.1)
  }

  /** The `useState` initialiser: one pass over the fields writing into an
      empty dictionary. */
  method InitialState(fields: seq<Field>) returns (initialState: FormData)
    ensures initialState == InitialData(fields)
  {
    initialState := map[];
    for i := 0 to |fields|
      invariant initialState == InitialData(fields[..i])
    {
      var field := fields[i];
      assert fields[..i + 1][..i] == fields[..i];
      if field.kind == Checkbox || field.kind == Toggle {
        initialState := Assign(initialState, field.name, Bool(field.checked == Some(true)));
      } else if field.kind == Radio {
        if field.checked == Some(true) {
          initialState := Assign(initialState, field.radioGroup, field.value);
        }
      } else {
        initialState := Assign(initialState, field.name, Or(field.value, Str("")));
      }
    }
    assert fields[..|fields|] == fields;
  }

  /** The keys of the initial data are exactly the keys some field writes,
      except `__proto__`. */
  lemma {:induction false} InitialKeys(fields: seq<Field>, k: string)
    ensures k in InitialData(fields) <==> k != ProtoKey && exists i :: 0 <= i < |fields| && WritesKey(fields[i], k)
  {
    if fields != [] {
      var n := |fields| - 1;
      InitialKeys(fields[..n], k);
      if exists i :: 0 <= i < n && WritesKey(fields[..n][i], k) {
        var i :| 0 <= i < n && WritesKey(fields[..n][i], k);
        assert fields[i] == fields[..n][i];
      }
      if exists i :: 0 <= i < |fields| && WritesKey(fields[i], k) {
        var i :| 0 <= i < |fields| && WritesKey(fields[i], k);
        if i < n {
          assert fields[..n][i] == fields[i];
        }
      }
    }
  }

  /** The value under a key other than `__proto__` is the one written by the
      last field that writes it: later fields overwrite earlier ones. */
  lemma {:induction false} LastWriterWins(fields: seq<Field>, i: nat)
    requires i < |fields| && InitialWrite(fields[i]).Some? && InitialWrite(fields[i]).value.0 != ProtoKey
    requires forall j :: i < j < |fields| ==> !WritesKey(fields[j], InitialWrite(fields[i]).value.0)
    ensures InitialWrite(fields[i]).value.0 in InitialData(fields)
    ensures InitialData(fields)[InitialWrite(fields[i]).value.0] == InitialWrite(fields[i]).value.1
  {
    var n := |fields| - 1;
    if i < n {
      var init := fields[..n];
      assert init[i] == fields[i];
      forall j | i < j < |init|
        ensures !WritesKey(init[j], InitialWrite(init[i]).value.0)
      {
        assert init[j] == fields[j];
      }
      LastWriterWins(init, i);
    }
  }

  /** What each kind of field starts at: a checkbox or toggle at its flag,
      false when absent; a checked radio at its value under its group; any
      other field at its value, or the empty string for a falsy one such as
      0 or a missing value. An unchecked radio writes nothing. */
  lemma FieldStarts(f: Field)
    ensures (f.kind == Checkbox || f.kind == Toggle) ==>
      InitialWrite(f) == Some((f.name, Bool(f.checked == Some(true))))
    ensures f.kind == Radio ==>
      (InitialWrite(f).Some? <==> f.checked == Some(true)) &&
      (InitialWrite(f).Some? ==> InitialWrite(f).value == (f.radioGroup, f.value))
    ensures f.kind !in {Checkbox, Toggle, Radio} ==>
      InitialWrite(f).Some? && InitialWrite(f).value.0 == f.name &&
      InitialWrite(f).value.1 == (if Truthy(f.value) then f.value else Str(""))
  {
  }

  /** `handleFieldChange`: the new data holds the value under the key, and
      every other key keeps what it had. */
  function FieldChange(data: FormData, name: string, value: Value): (r: FormData)
    ensures r.Keys == data.Keys + {name}
    ensures r[name] == value
    ensures forall k :: k in data && k != name ==> r[k] == data[k]
  {
    data[name := value]
  }

  /** The key a field's control reports its changes under: a radio its
      group, every other field its name. */
  function ChangeKey(f: Field): string {
    if f.kind == Radio then f.radioGroup else f.name
  }

  /** A field's changes land where its initial value was written. */
  lemma ChangeKeyIsInitialKey(f: Field)
    requires InitialWrite(f).Some?
    ensures InitialWrite(f).value.0 == ChangeKey(f)
  {
  }

  /** The data a missing key reads as. */
  function Lookup(data: FormData, k: string): Value {
    if k in data then data[k] else Undefined
  }

  /** A radio shows as checked when the value under its group is its own
      value, compared with `===`; so, unless its own value is `undefined`,
      only when its group holds a value. */
  predicate RadioChecked(data: FormData, f: Field)
    ensures RadioChecked(data, f) && f.value != Undefined ==> f.radioGroup in data
  {
    Lookup(data, f.radioGroup) == f.value
  }

  /** Within a group whose radios have distinct values, at most one shows as
      checked. */
  lemma AtMostOneRadioChecked(data: FormData, radios: seq<Field>, i: nat, j: nat)
    requires i < |radios| && j < |radios|
    requires forall a, b :: 0 <= a < b < |radios| ==>
      radios[a].radioGroup == radios[b].radioGroup && radios[a].value != radios[b].value
    requires RadioChecked(data, radios[i]) && RadioChecked(data, radios[j])
    ensures i == j
  {
    assert radios[i].value == Lookup(data, radios[i].radioGroup) == radios[j].value;
  }

  // ------------------------------------------------- selecting a radio

  /** The text a DOM input reports as its value: a number in decimal, so
      never a number; any other value as it is. */
  function DomValue(v: Value): (r: Value)
    ensures !r.Num?
    ensures !v.Num? ==> r == v
  {
    match v
    case Num(n) => Str(Decimal(n))
    case _ => v
  }

  function Decimal(n: int): string
    decreases if n < 0 then -n + 1 else n
  {
    if n < 0 then "-" + Decimal(-n)
    else if n < 10 then [Digit(n)]
    else Decimal(n / 10) + [Digit(n % 10)]
  }

  function Digit(d: int): char
    requires 0 <= d < 10
  {
    "0123456789"[d]
  }

  /** Selecting a radio as written: the group receives the input's value as
      the DOM reports it. */
  function SelectRadioAsWritten(data: FormData, f: Field): (r: FormData)
    ensures !f.value.Num? ==> r == SelectRadio(data, f)
    ensures r.Keys == data.Keys + {f.radioGroup}
  {
    FieldChange(data, f.radioGroup, DomValue(f.value))
  }

  /** As written, a radio with a numeric value does not show as checked after
      it is selected: the group now holds text, the radio a number. */
  lemma NumericRadioNotChecked(data: FormData, f: Field)
    requires f.value.Num?
    ensures !RadioChecked(SelectRadioAsWritten(data, f), f)
  {
  }

  /** Selecting a radio: the group receives the radio's own value, so the
      radio shows as checked. */
  function SelectRadio(data: FormData, f: Field): (r: FormData)
    ensures RadioChecked(r, f)
    ensures r.Keys == data.Keys + {f.radioGroup}
  {
    FieldChange(data, f.radioGroup, f.value)
  }

  /** After selecting a radio it shows as checked, every radio of its group
      with another value shows as unchecked, and no other key changes. */
  lemma SelectedRadioIsChecked(data: FormData, f: Field, g: Field)
    requires g.radioGroup == f.radioGroup && g.value != f.value
    ensures RadioChecked(SelectRadio(data, f), f)
    ensures !RadioChecked(SelectRadio(data, f), g)
    ensures forall k :: k in data && k != f.radioGroup ==> SelectRadio(data, f)[k] == data[k]
  {
  }

  // ------------------------------------------------- the component state

  /** The form's state: the current data, updated through the controls. */
  class Form {
    var formData: FormData

    constructor (fields: seq<Field>)
      ensures formData == InitialData(fields)
    {
      var initial := InitialState(fields);
      formData := initial;
    }

    /** `handleFieldChange`. */
    method HandleFieldChange(name: string, value: Value)
      modifies this
      ensures formData == FieldChange(old(formData), name, value)
    {
      formData := formData[name := value];
    }

    /** A radio's change handler: its group receives the value the DOM
        reports for it. */
    method HandleRadioChange(f: Field)
      modifies this
      ensures formData == SelectRadioAsWritten(old(formData), f)
      ensures Checked(f) <==> !f.value.Num?
    {
      HandleFieldChange(f.radioGroup, DomValue(f.value));
      if f.value.Num? {
        NumericRadioNotChecked(old(formData), f);
      }
    }

    /** `handleSubmit`: the current data is passed on unchanged. */
    method HandleSubmit() returns (submitted: FormData)
      ensures submitted == formData
    {
      submitted := formData;
    }

    /** Whether the radio `f` shows as checked, as its `checked` attribute
        compares the group's value with its own. */
    predicate Checked(f: Field)
      reads this
    {
      RadioChecked(formData, f)
    }
  }
}
