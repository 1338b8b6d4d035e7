/**
 * Filling the placeholders of a custom command: a JSON-like value in which
 * objects of the form `{type: "placeholder", index: i}` stand for the `i`-th of
 * the captured values. Arrays and other objects are filled member by member;
 * anything else is returned as it is.
 */
module FillPlaceholders {
  import opened Wrappers

  /** A JavaScript value as the command grammar builds it; numbers are integers here. */
  datatype Json =
    | JUndefined
    | JNull
    | JBool(b: bool)
    | JNumber(n: int)
    | JString(s: string)
    | JArray(items: seq<Json>)
    /** An object's own properties, in enumeration order. */
    | JObject(fields: seq<Field>)

  datatype Field = Field(key: string, value: Json)

  /** The value of the first property named `key`, if any. */
  function Lookup(fields: seq<Field>, key: string): (r: Option<Json>)
    ensures r.Some? <==> exists i :: 0 <= i < |fields| && fields[i].key == key
    ensures r.Some? ==> exists i :: 0 <= i < |fields| && fields[i] == Field(key, r.value)
  {
    if fields == [] then None
    else if fields[0].key == key then Some(fields[0].value)
    else
      var r := Lookup(fields[1..], key);
      assert forall i :: 1 <= i < |fields| ==> fields[i] == fields[1..][i - 1];
      assert r.Some? ==> exists i :: 0 <= i < |fields[1..]| && fields[1..][i].key == key;
      r
  }

  /** `isPlaceholder`: a non-null object whose `type` is "placeholder"; arrays never reach this test. */
  predicate IsPlaceholder(x: Json) {
    x.JObject? && Lookup(x.fields, "type") == Some(JString("placeholder"))
  }

  /** The index a placeholder names, when it is a number. */
  function PlaceholderIndexOf(x: Json): Option<int>
    requires x.JObject?
  {
    match Lookup(x.fields, "index")
    case Some(JNumber(i)) => Some(i)
    case _ => None
  }

  function Keys(fields: seq<Field>): (r: seq<string>)
    ensures |r| == |fields| && forall i :: 0 <= i < |r| ==> r[i] == fields[i].key
  {
    seq(|fields|, i requires 0 <= i < |fields| => fields[i].key)
  }

  /**
   * `fillPlaceholders`: arrays member by member, a placeholder by the value it
   * names (strict indexing: an index outside the values fails), any other
   * object key by key, anything else unchanged. The first failure, in
   * evaluation order, is the result.
   */
  function Fill(input: Json, values: seq<Json>): (r: Result<Json>)
    ensures input.JArray? && r.Ok? ==> r.value.JArray? && |r.value.items| == |input.items|
    ensures input.JObject? && !IsPlaceholder(input) && r.Ok? ==>
              r.value.JObject? && Keys(r.value.fields) == Keys(input.fields)
    ensures IsPlaceholder(input) ==>
              (r.Ok? <==> PlaceholderIndexOf(input).Some? && 0 <= PlaceholderIndexOf(input).value < |values|)
    ensures IsPlaceholder(input) && r.Ok? ==> r.value == values[PlaceholderIndexOf(input).value]
    ensures !input.JArray? && !input.JObject? ==> r == Ok(input)
    decreases input
  {
    match input
    case JArray(items) =>
      (match FillItems(items, values)
       case Ok(filled) => Ok(JArray(filled))
       case Err(e) => Err(e))
    case JObject(fields) =>
      if IsPlaceholder(input) then
        (match PlaceholderIndexOf(input)
         case Some(i) => if 0 <= i < |values| then Ok(values[i]) else Err(PlaceholderIndex)
         case None => Err(PlaceholderIndex))
      else
        (match FillFields(fields, values)
         case Ok(filled) => Ok(JObject(filled))
         case Err(e) => Err(e))
    case _ => Ok(input)
  }

  /** The `map` over an array: the members filled in order, or the first failure. */
  function FillItems(items: seq<Json>, values: seq<Json>): (r: Result<seq<Json>>)
    ensures r.Ok? ==> |r.value| == |items|
    decreases items
  {
    if items == [] then Ok([])
    else
      match FillItems(items[..|items| - 1], values)
      case Err(e) => Err(e)
      case Ok(done) =>
        match Fill(items[|items| - 1], values)
        case Err(e) => Err(e)
        case Ok(v) => Ok(done + [v])
  }

  /** The `for-in` loop: each own key assigned its filled value, in order, or the first failure. */
  function FillFields(fields: seq<Field>, values: seq<Json>): (r: Result<seq<Field>>)
    ensures r.Ok? ==> Keys(r.value) == Keys(fields)
    decreases fields
  {
    if fields == [] then Ok([])
    else
      var last := fields[|fields| - 1];
      match FillFields(fields[..|fields| - 1], values)
      case Err(e) => Err(e)
      case Ok(done) =>
        match Fill(last.value, values)
        case Err(e) => Err(e)
        case Ok(v) =>
          assert Keys(done + [Field(last.key, v)]) == Keys(fields[..|fields| - 1]) + [last.key];
          assert Keys(fields) == Keys(fields[..|fields| - 1]) + [last.key];
          Ok(done + [Field(last.key, v)])
  }

  // ---------------------------------------------------------------------------
  // What filling means

  /** Whether a placeholder occurs where filling would find it. */
  predicate ContainsPlaceholder(x: Json)
    decreases x
  {
    IsPlaceholder(x) ||
    (x.JArray? && exists i :: 0 <= i < |x.items| && ContainsPlaceholder(x.items[i])) ||
    (x.JObject? && exists i :: 0 <= i < |x.fields| && ContainsPlaceholder(x.fields[i].value))
  }

  /** Whether every placeholder filling would find names one of `n` values. */
  predicate Resolvable(x: Json, n: nat)
    decreases x
  {
    if IsPlaceholder(x) then PlaceholderIndexOf(x).Some? && 0 <= PlaceholderIndexOf(x).value < n
    else
      (x.JArray? ==> forall i :: 0 <= i < |x.items| ==> Resolvable(x.items[i], n)) &&
      (x.JObject? ==> forall i :: 0 <= i < |x.fields| ==> Resolvable(x.fields[i].value, n))
  }

  /**
   * Filling succeeds exactly when every placeholder names one of the values,
   * and a value without placeholders is its own filling.
   */
  lemma {:induction false} FillMeaning(x: Json, values: seq<Json>)
    ensures Fill(x, values).Ok? <==> Resolvable(x, |values|)
    ensures !ContainsPlaceholder(x) ==> Fill(x, values) == Ok(x)
    decreases x, 1
  {
    match x
    case JArray(items) =>
      FillItemsMeaning(items, values);
    case JObject(fields) =>
      if !IsPlaceholder(x) {
        FillFieldsMeaning(fields, values);
      }
    case _ =>
  }

  /** The members of an array are filled one by one, each as if on its own. */
  lemma {:induction false} FillItemsMeaning(items: seq<Json>, values: seq<Json>)
    ensures FillItems(items, values).Ok? <==> forall i :: 0 <= i < |items| ==> Resolvable(items[i], |values|)
    ensures FillItems(items, values).Ok? ==>
              forall i :: 0 <= i < |items| ==>
                Fill(items[i], values).Ok? && FillItems(items, values).value[i] == Fill(items[i], values).value
    ensures (forall i :: 0 <= i < |items| ==> !ContainsPlaceholder(items[i])) ==> FillItems(items, values) == Ok(items)
    decreases items, 0
  {
    if items != [] {
      FillItemsMeaning(items[..|items| - 1], values);
      FillMeaning(items[|items| - 1], values);
      ItemsSucceedStep(items, values);
      ItemsFilledStep(items, values);
      ItemsKeptStep(items, values);
    }
  }

  predicate ItemsSucceedExactly(items: seq<Json>, values: seq<Json>) {
    FillItems(items, values).Ok? <==> forall i :: 0 <= i < |items| ==> Resolvable(items[i], |values|)
  }

  predicate ItemsFilledEach(items: seq<Json>, values: seq<Json>) {
    FillItems(items, values).Ok? ==>
      forall i :: 0 <= i < |items| ==>
        Fill(items[i], values).Ok? && FillItems(items, values).value[i] == Fill(items[i], values).value
  }

  predicate ItemsKept(items: seq<Json>, values: seq<Json>) {
    (forall i :: 0 <= i < |items| ==> !ContainsPlaceholder(items[i])) ==> FillItems(items, values) == Ok(items)
  }

  /** Filling a whole array succeeds exactly when filling its members before the last and its last succeed. */
  lemma ItemsSucceedStep(items: seq<Json>, values: seq<Json>)
    requires items != [] && ItemsSucceedExactly(items[..|items| - 1], values)
    requires Fill(items[|items| - 1], values).Ok? <==> Resolvable(items[|items| - 1], |values|)
    ensures ItemsSucceedExactly(items, values)
  {
    var n, m := |items|, |values|;
    var prefix := items[..n - 1];
    assert FillItems(items, values).Ok? <==> FillItems(prefix, values).Ok? && Fill(items[n - 1], values).Ok?;
    assert (forall i :: 0 <= i < n - 1 ==> Resolvable(prefix[i], m)) && Resolvable(items[n - 1], m) ==>
           forall i :: 0 <= i < n ==> Resolvable(items[i], m) by {
      if (forall i :: 0 <= i < n - 1 ==> Resolvable(prefix[i], m)) && Resolvable(items[n - 1], m) {
        forall i | 0 <= i < n ensures Resolvable(items[i], m) {
          if i < n - 1 {
            assert prefix[i] == items[i];
          }
        }
      }
    }
    assert (forall i :: 0 <= i < n ==> Resolvable(items[i], m)) ==>
           forall i :: 0 <= i < n - 1 ==> Resolvable(prefix[i], m) by {
      if forall i :: 0 <= i < n ==> Resolvable(items[i], m) {
        forall i | 0 <= i < n - 1 ensures Resolvable(prefix[i], m) {
          assert prefix[i] == items[i];
        }
      }
    }
  }

  /** Each member of a filled array is that member filled. */
  lemma ItemsFilledStep(items: seq<Json>, values: seq<Json>)
    requires items != [] && ItemsFilledEach(items[..|items| - 1], values)
    ensures ItemsFilledEach(items, values)
  {
    var n := |items|;
    var prefix := items[..n - 1];
    var r := FillItems(items, values);
    if r.Ok? {
      var done := FillItems(prefix, values).value;
      assert r.value == done + [Fill(items[n - 1], values).value];
      forall i | 0 <= i < n
        ensures Fill(items[i], values).Ok? && r.value[i] == Fill(items[i], values).value
      {
        if i < n - 1 {
          assert prefix[i] == items[i];
          assert r.value[i] == done[i];
        }
      }
    }
  }

  /** An array without placeholders is its own filling. */
  lemma ItemsKeptStep(items: seq<Json>, values: seq<Json>)
    requires items != [] && ItemsKept(items[..|items| - 1], values)
    requires !ContainsPlaceholder(items[|items| - 1]) ==> Fill(items[|items| - 1], values) == Ok(items[|items| - 1])
    ensures ItemsKept(items, values)
  {
    var n := |items|;
    var prefix := items[..n - 1];
    if forall i :: 0 <= i < n ==> !ContainsPlaceholder(items[i]) {
      assert forall i :: 0 <= i < n - 1 ==> prefix[i] == items[i];
      assert !ContainsPlaceholder(items[n - 1]);
      assert items == prefix + [items[n - 1]];
    }
  }

  /** The properties of an object are filled one by one, each as if on its own, keeping their keys. */
  lemma {:induction false} FillFieldsMeaning(fields: seq<Field>, values: seq<Json>)
    ensures FillFields(fields, values).Ok? <==> forall i :: 0 <= i < |fields| ==> Resolvable(fields[i].value, |values|)
    ensures FillFields(fields, values).Ok? ==>
              forall i :: 0 <= i < |fields| ==>
                Fill(fields[i].value, values).Ok? &&
                FillFields(fields, values).value[i] == Field(fields[i].key, Fill(fields[i].value, values).value)
    ensures (forall i :: 0 <= i < |fields| ==> !ContainsPlaceholder(fields[i].value)) ==> FillFields(fields, values) == Ok(fields)
    decreases fields, 0
  {
    if fields != [] {
      FillFieldsMeaning(fields[..|fields| - 1], values);
      FillMeaning(fields[|fields| - 1].value, values);
      FieldsSucceedStep(fields, values);
      FieldsFilledStep(fields, values);
      FieldsKeptStep(fields, values);
    }
  }

  predicate FieldsSucceedExactly(fields: seq<Field>, values: seq<Json>) {
    FillFields(fields, values).Ok? <==> forall i :: 0 <= i < |fields| ==> Resolvable(fields[i].value, |values|)
  }

  predicate FieldsFilledEach(fields: seq<Field>, values: seq<Json>) {
    FillFields(fields, values).Ok? ==>
      forall i :: 0 <= i < |fields| ==>
        Fill(fields[i].value, values).Ok? &&
        FillFields(fields, values).value[i] == Field(fields[i].key, Fill(fields[i].value, values).value)
  }

  predicate FieldsKept(fields: seq<Field>, values: seq<Json>) {
    (forall i :: 0 <= i < |fields| ==> !ContainsPlaceholder(fields[i].value)) ==> FillFields(fields, values) == Ok(fields)
  }

  /** Filling a whole object succeeds exactly when filling its properties before the last and its last succeed. */
  lemma FieldsSucceedStep(fields: seq<Field>, values: seq<Json>)
    requires fields != [] && FieldsSucceedExactly(fields[..|fields| - 1], values)
    requires Fill(fields[|fields| - 1].value, values).Ok? <==> Resolvable(fields[|fields| - 1].value, |values|)
    ensures FieldsSucceedExactly(fields, values)
  {
    var n, m := |fields|, |values|;
    var prefix := fields[..n - 1];
    assert FillFields(fields, values).Ok? <==> FillFields(prefix, values).Ok? && Fill(fields[n - 1].value, values).Ok?;
    assert (forall i :: 0 <= i < n - 1 ==> Resolvable(prefix[i].value, m)) && Resolvable(fields[n - 1].value, m) ==>
           forall i :: 0 <= i < n ==> Resolvable(fields[i].value, m) by {
      if (forall i :: 0 <= i < n - 1 ==> Resolvable(prefix[i].value, m)) && Resolvable(fields[n - 1].value, m) {
        forall i | 0 <= i < n ensures Resolvable(fields[i].value, m) {
          if i < n - 1 {
            assert prefix[i] == fields[i];
          }
        }
      }
    }
    assert (forall i :: 0 <= i < n ==> Resolvable(fields[i].value, m)) ==>
           forall i :: 0 <= i < n - 1 ==> Resolvable(prefix[i].value, m) by {
      if forall i :: 0 <= i < n ==> Resolvable(fields[i].value, m) {
        forall i | 0 <= i < n - 1 ensures Resolvable(prefix[i].value, m) {
          assert prefix[i] == fields[i];
        }
      }
    }
  }

  /** Each property of a filled object is that property with its value filled. */
  lemma FieldsFilledStep(fields: seq<Field>, values: seq<Json>)
    requires fields != [] && FieldsFilledEach(fields[..|fields| - 1], values)
    ensures FieldsFilledEach(fields, values)
  {
    var n := |fields|;
    var prefix := fields[..n - 1];
    var last := fields[n - 1];
    var r := FillFields(fields, values);
    if r.Ok? {
      var done := FillFields(prefix, values).value;
      assert r.value == done + [Field(last.key, Fill(last.value, values).value)];
      forall i | 0 <= i < n
        ensures Fill(fields[i].value, values).Ok? &&
                r.value[i] == Field(fields[i].key, Fill(fields[i].value, values).value)
      {
        if i < n - 1 {
          assert prefix[i] == fields[i];
          assert r.value[i] == done[i];
        }
      }
    }
  }

  /** An object without placeholders is its own filling. */
  lemma FieldsKeptStep(fields: seq<Field>, values: seq<Json>)
    requires fields != [] && FieldsKept(fields[..|fields| - 1], values)
    requires !ContainsPlaceholder(fields[|fields| - 1].value) ==>
               Fill(fields[|fields| - 1].value, values) == Ok(fields[|fields| - 1].value)
    ensures FieldsKept(fields, values)
  {
    var n := |fields|;
    var prefix := fields[..n - 1];
    var last := fields[n - 1];
    if forall i :: 0 <= i < n ==> !ContainsPlaceholder(fields[i].value) {
      assert forall i :: 0 <= i < n - 1 ==> prefix[i] == fields[i];
      assert !ContainsPlaceholder(last.value);
      assert fields == prefix + [Field(last.key, last.value)];
    }
  }

  // ---------------------------------------------------------------------------
  // The procedure

  /** Once a prefix of the members fails, the whole array fails the same way. */
  lemma {:induction false} FirstItemFailureStays(items: seq<Json>, j: nat, values: seq<Json>)
    requires j <= |items| && FillItems(items[..j], values).Err?
    ensures FillItems(items, values) == FillItems(items[..j], values)
    decreases |items|
  {
    if j < |items| {
      var prefix := items[..|items| - 1];
      assert prefix[..j] == items[..j];
      FirstItemFailureStays(prefix, j, values);
    } else {
      assert items[..j] == items;
    }
  }

  /** Once a prefix of the properties fails, the whole object fails the same way. */
  lemma {:induction false} FirstFieldFailureStays(fields: seq<Field>, j: nat, values: seq<Json>)
    requires j <= |fields| && FillFields(fields[..j], values).Err?
    ensures FillFields(fields, values) == FillFields(fields[..j], values)
    decreases |fields|
  {
    if j < |fields| {
      var prefix := fields[..|fields| - 1];
      assert prefix[..j] == fields[..j];
      FirstFieldFailureStays(prefix, j, values);
    } else {
      assert fields[..j] == fields;
    }
  }

  /**
   * `fillPlaceholders` as the procedure runs it: the array's `map` and the
   * object's `for-in` loop, each stopping at the first failure.
   */
  method FillPlaceholders(input: Json, values: seq<Json>) returns (r: Result<Json>)
    ensures r == Fill(input, values)
    decreases input, 1
  {
    match input {
      case JArray(items) =>
        var filled := FillArray(items, values);
        if filled.Err? {
          return Err(filled.error);
        }
        return Ok(JArray(filled.value));
      case JObject(fields) =>
        if IsPlaceholder(input) {
          var index := PlaceholderIndexOf(input);
          if index.Some? && 0 <= index.value < |values| {
            return Ok(values[index.value]);
          }
          return Err(PlaceholderIndex);
        }
        var filled := FillObject(fields, values);
        if filled.Err? {
          return Err(filled.error);
        }
        return Ok(JObject(filled.value));
      case _ =>
        return Ok(input);
    }
  }

  /** The array's `map`: each member filled in turn, stopping at the first failure. */
  method FillArray(items: seq<Json>, values: seq<Json>) returns (r: Result<seq<Json>>)
    ensures r == FillItems(items, values)
    decreases items, 0
  {
    var filled: seq<Json> := [];
    for k := 0 to |items|
      invariant FillItems(items[..k], values) == Ok(filled)
    {
      assert items[..k + 1][..k] == items[..k];
      var v := FillPlaceholders(items[k], values);
      if v.Err? {
        FirstItemFailureStays(items, k + 1, values);
        return Err(v.error);
      }
      filled := filled + [v.value];
    }
    assert items[..|items|] == items;
    return Ok(filled);
  }

  /** The object's `for-in` loop: each own property filled in turn, stopping at the first failure. */
  method FillObject(fields: seq<Field>, values: seq<Json>) returns (r: Result<seq<Field>>)
    ensures r == FillFields(fields, values)
    decreases fields, 0
  {
    var result: seq<Field> := [];
    for k := 0 to |fields|
      invariant FillFields(fields[..k], values) == Ok(result)
    {
      assert fields[..k + 1][..k] == fields[..k];
      var v := FillPlaceholders(fields[k].value, values);
      if v.Err? {
        FirstFieldFailureStays(fields, k + 1, values);
        return Err(v.error);
      }
      result := result + [Field(fields[k].key, v.value)];
    }
    assert fields[..|fields|] == fields;
    return Ok(result);
  }
}
