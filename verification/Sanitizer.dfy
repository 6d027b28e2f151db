/** Rewriting an arbitrary JavaScript value into plain JSON before it is stored.  The order of the
    branches matters: a value whose toString looks like a number becomes that number before anyone
    asks whether it is an array.

    Number formatting and Number() parsing are the two primitives taken from the host (`Js`). */
module Sanitizer {
  import opened Text
  import Decimal

  /** The result of calling a method. */
  datatype Call<T> = Gives(value: T) | Throws

  /** What an object offers under the names toNumber and toString through its prototype. */
  datatype Proto = Proto(toNumber: Option<Call<real>>, toText: Option<Call<string>>)

  const PLAIN := Proto(None, Some(Gives("[object Object]")))

  /** A finite JavaScript value.  An invalid Date has no ISO form; a function says what it would answer
      if it were called as a toNumber or a toString method. */
  datatype Value =
    | Undefined
    | Null
    | Bool(b: bool)
    | Num(x: real)
    | Str(s: string)
    | BigInt(i: int)
    | Symbol(description: string)
    | Func(source: string, asNumber: Call<real>, asText: Call<string>)
    | Date(iso: Option<string>, text: string)
    | Error(name: string, message: string, stack: Option<string>)
    | Arr(items: seq<Value>)
    | Record(fields: seq<Field>, proto: Proto)

  datatype Field = Field(key: string, value: Value)

  datatype Js = Js(format: real -> string, parse: string -> Option<real>)

  // ---------------------------------------------------------------------------- object lookups

  function Lookup(fields: seq<Field>, key: string): Option<Value> {
    if fields == [] then None
    else if fields[0].key == key then Some(fields[0].value)
    else Lookup(fields[1..], key)
  }

  function ToNumberMethod(v: Value): Option<Call<real>>
    requires v.Record?
  {
    match Lookup(v.fields, "toNumber")
    case None => v.proto.toNumber
    case Some(Func(_, asNumber, _)) => Some(asNumber)
    case Some(_) => None
  }

  function ToTextMethod(v: Value): Option<Call<string>>
    requires v.Record?
  {
    match Lookup(v.fields, "toString")
    case None => v.proto.toText
    case Some(Func(_, _, asText)) => Some(asText)
    case Some(_) => None
  }

  // ------------------------------------------------------------------------------- conversion

  /** String(v); None when the conversion throws. */
  function TextOf(js: Js, v: Value): Option<string>
    decreases v, 1
  {
    match v
    case Undefined => Some("undefined")
    case Null => Some("null")
    case Bool(b) => Some(if b then "true" else "false")
    case Num(x) => Some(js.format(x))
    case Str(s) => Some(s)
    case BigInt(i) => Some(js.format(i as real))
    case Symbol(description) => Some("Symbol(" + description + ")")
    case Func(source, _, _) => Some(source)
    case Date(_, text) => Some(text)
    case Error(name, message, _) =>
      Some(if name == "" then message else if message == "" then name else name + ": " + message)
    case Arr(items) => JoinItems(js, items, ",")
    case Record(_, _) =>
      match ToTextMethod(v)
      case Some(Gives(text)) => Some(text)
      case _ => None
  }

  /** Array.prototype.join: null and undefined print as nothing, a symbol throws. */
  function JoinItems(js: Js, items: seq<Value>, sep: string): Option<string>
    decreases items, 0
  {
    if items == [] then Some("")
    else
      var first :=
        if items[0].Undefined? || items[0].Null? then Some("")
        else if items[0].Symbol? then None
        else TextOf(js, items[0]);
      match (first, JoinItems(js, items[1..], sep))
      case (Some(head), Some(tail)) => Some(if |items| == 1 then head else head + sep + tail)
      case _ => None
  }

  /** The number a text reads as, when it is not blank and not NaN. */
  function NumberIn(js: Js, text: Option<string>): Option<real> {
    if text.Some? && Trim(text.value) != "" then js.parse(text.value) else None
  }

  // --------------------------------------------------------------------------- stored decimals

  predicate DecimalLike(fields: seq<Field>) {
    && Lookup(fields, "d").Some?
    && Lookup(fields, "e").Some? && Lookup(fields, "e").value.Num?
    && Lookup(fields, "s").Some? && Lookup(fields, "s").value.Num?
  }

  function DigitsText(js: Js, d: Value): Option<string> {
    match d
    case Arr(items) => if items == [] then None else JoinItems(js, items, "")
    case Num(x) => if x == 0.0 then None else Some(js.format(x))
    case _ => None
  }

  /** The number rebuilt from {d, e, s}; every failure yields 0. */
  function Rebuilt(js: Js, fields: seq<Field>): real
    requires DecimalLike(fields)
  {
    match DigitsText(js, Lookup(fields, "d").value)
    case None => 0.0
    case Some(digits) =>
      match js.parse(Decimal.Numeral(Lookup(fields, "s").value.x < 0.0, digits, Lookup(fields, "e").value.x))
      case None => 0.0
      case Some(x) => x
  }

  // -------------------------------------------------------------------------------- one pass

  /** The number a record turns into before its fields are looked at, if it turns into one. */
  function NumberOf(js: Js, v: Value): Option<real>
    requires v.Record? && ToNumberMethod(v) != Some(Throws)
  {
    var number, text := ToNumberMethod(v), ToTextMethod(v);
    if number.Some? then Some(number.value.value)
    else if DecimalLike(v.fields) then Some(Rebuilt(js, v.fields))
    else if text.Some? && text.value.Gives? then NumberIn(js, Some(text.value.value))
    else None
  }

  /** sanitizeForDatabase; None when it throws. */
  function Sanitize(js: Js, v: Value): Option<Value>
    decreases v, 1
  {
    match v
    case Undefined | Null => Some(Null)
    case Func(_, _, _) => Some(Str("[Function]"))
    case Date(iso, _) => Some(if iso.Some? then Str(iso.value) else v)
    case BigInt(i) => Some(Num(i as real))
    case Error(name, message, stack) =>
      Some(Record([Field("name", Str(name)), Field("message", Str(message)),
                   Field("stack", if stack.Some? then Str(stack.value) else Undefined)], PLAIN))
    case Symbol(description) => Some(Str("Symbol(" + description + ")"))
    case Bool(_) | Num(_) | Str(_) => Some(v)
    case Arr(items) =>
      if NumberIn(js, JoinItems(js, items, ",")).Some? then Some(Num(NumberIn(js, JoinItems(js, items, ",")).value))
      else (match SanitizeItems(js, items)
            case Some(clean) => Some(Arr(clean))
            case None => None)
    case Record(fields, _) =>
      if ToNumberMethod(v) == Some(Throws) then AsText(js, v)
      else if NumberOf(js, v).Some? then Some(Num(NumberOf(js, v).value))
      else match SanitizeFields(js, fields)
        case Some(clean) => Some(Record(clean, PLAIN))
        case None => AsText(js, v)
  }

  function AsText(js: Js, v: Value): Option<Value> {
    match TextOf(js, v)
    case Some(text) => Some(Str(text))
    case None => None
  }

  function SanitizeItems(js: Js, items: seq<Value>): Option<seq<Value>>
    decreases items, 0
  {
    if items == [] then Some([])
    else match (Sanitize(js, items[0]), SanitizeItems(js, items[1..]))
      case (Some(head), Some(tail)) => Some([head] + tail)
      case _ => None
  }

  /** The constructor key and undefined values are skipped. */
  predicate Skipped(f: Field) {
    f.key == "constructor" || f.value.Undefined?
  }

  function SanitizeFields(js: Js, fields: seq<Field>): Option<seq<Field>>
    decreases fields, 0
  {
    if fields == [] then Some([])
    else if Skipped(fields[0]) then SanitizeFields(js, fields[1..])
    else match (Sanitize(js, fields[0].value), SanitizeFields(js, fields[1..]))
      case (Some(head), Some(tail)) => Some([Field(fields[0].key, head)] + tail)
      case _ => None
  }

  // ------------------------------------------------------------------------------- plain JSON

  /** null, booleans, numbers, strings, and arrays and plain objects of these; unless `strict`, also invalid Dates,
      and undefined as the value of a field. */
  predicate IsClean(v: Value, strict: bool)
    decreases v, 1
  {
    match v
    case Null | Bool(_) | Num(_) | Str(_) => true
    case Date(iso, _) => !strict && iso.None?
    case Arr(items) => AllClean(items, strict)
    case Record(fields, proto) => proto == PLAIN && AllFieldsClean(fields, strict)
    case _ => false
  }

  predicate AllClean(items: seq<Value>, strict: bool)
    decreases items, 0
  {
    items != [] ==> IsClean(items[0], strict) && AllClean(items[1..], strict)
  }

  predicate AllFieldsClean(fields: seq<Field>, strict: bool)
    decreases fields, 0
  {
    fields != [] ==>
      && ((!strict && fields[0].value.Undefined?) || IsClean(fields[0].value, strict))
      && AllFieldsClean(fields[1..], strict)
  }

  predicate IsJson(v: Value) {
    IsClean(v, true)
  }

  /** No object anywhere inside has a key named constructor. */
  predicate NoConstructorKey(v: Value)
    decreases v, 1
  {
    match v
    case Arr(items) => NoConstructorInItems(items)
    case Record(fields, _) => NoConstructorInFields(fields)
    case _ => true
  }

  predicate NoConstructorInItems(items: seq<Value>)
    decreases items, 0
  {
    items != [] ==> NoConstructorKey(items[0]) && NoConstructorInItems(items[1..])
  }

  predicate NoConstructorInFields(fields: seq<Field>)
    decreases fields, 0
  {
    fields != [] ==>
      fields[0].key != "constructor" && NoConstructorKey(fields[0].value) && NoConstructorInFields(fields[1..])
  }

  /** A value that is not JSON survives the pass: an invalid Date is handed on, and the copy of an Error
      without a stack keeps an undefined field.  What sits under a skipped key, or inside an array or
      an object that turned into one number or text, does not survive. */
  predicate Leaks(js: Js, v: Value)
    decreases v, 1
  {
    match v
    case Date(iso, _) => iso.None?
    case Error(_, _, stack) => stack.None?
    case Arr(items) => NumberIn(js, JoinItems(js, items, ",")).None? && SomeItemLeaks(js, items)
    case Record(fields, _) =>
      && ToNumberMethod(v) != Some(Throws)
      && NumberOf(js, v).None?
      && SanitizeFields(js, fields).Some?
      && SomeFieldLeaks(js, fields)
    case _ => false
  }

  predicate SomeItemLeaks(js: Js, items: seq<Value>)
    decreases items, 0
  {
    items != [] && (Leaks(js, items[0]) || SomeItemLeaks(js, items[1..]))
  }

  predicate SomeFieldLeaks(js: Js, fields: seq<Field>)
    decreases fields, 0
  {
    fields != [] && ((!Skipped(fields[0]) && Leaks(js, fields[0].value)) || SomeFieldLeaks(js, fields[1..]))
  }

  /** One pass always removes every constructor key and leaves a clean value, and its result is plain JSON if and
      only if no invalid Date and no Error without a stack survives in the input. */
  lemma {:induction false} SanitizedIsJsonIff(js: Js, v: Value)
    requires Sanitize(js, v).Some?
    ensures NoConstructorKey(Sanitize(js, v).value) && IsClean(Sanitize(js, v).value, false)
    ensures IsJson(Sanitize(js, v).value) <==> !Leaks(js, v)
    decreases v, 1
  {
    hide NumberIn, NumberOf, ToNumberMethod, JoinItems, TextOf;
    match v
    case Arr(items) =>
      if NumberIn(js, JoinItems(js, items, ",")).None? { ItemsAreJsonIff(js, items); }
    case Record(fields, _) =>
      if ToNumberMethod(v) != Some(Throws) && NumberOf(js, v).None? && SanitizeFields(js, fields).Some? {
        FieldsAreJsonIff(js, fields);
      }
    case Error(name, message, stack) => ErrorCopyIsJsonIff(js, v);
    case _ =>
  }

  lemma ErrorCopyIsJsonIff(js: Js, v: Value)
    requires v.Error?
    ensures NoConstructorKey(Sanitize(js, v).value) && IsClean(Sanitize(js, v).value, false)
    ensures IsJson(Sanitize(js, v).value) <==> v.stack.Some?
  {
    var fields := Sanitize(js, v).value.fields;
    var two, one := fields[1..], fields[1..][1..];
    assert two[0].key == "message" && one[0].key == "stack" && one[1..] == [];
    assert NoConstructorInFields(one[1..]);
    assert NoConstructorInFields(one) && NoConstructorInFields(two);
    LastFieldClean(fields, false);
    LastFieldClean(fields, true);
  }

  /** Two texts in front do not matter. */
  lemma LastFieldClean(fields: seq<Field>, strict: bool)
    requires |fields| == 3 && fields[0].value.Str? && fields[1].value.Str?
    ensures AllFieldsClean(fields, strict)
      <==> (!strict && fields[2].value.Undefined?) || IsClean(fields[2].value, strict)
  {
    var two, one := fields[1..], fields[1..][1..];
    assert one[1..] == [] && one[0] == fields[2] && two[0] == fields[1];
    assert AllFieldsClean(fields, strict) <==> AllFieldsClean(two, strict);
    assert AllFieldsClean(two, strict) <==> AllFieldsClean(one, strict);
    assert AllFieldsClean(one[1..], strict);
  }

  lemma {:induction false} ItemsAreJsonIff(js: Js, items: seq<Value>)
    requires SanitizeItems(js, items).Some?
    ensures var clean := SanitizeItems(js, items).value;
      && NoConstructorInItems(clean) && AllClean(clean, false)
      && (AllClean(clean, true) <==> !SomeItemLeaks(js, items))
    decreases items, 0
  {
    hide Sanitize, Leaks, IsClean, NoConstructorKey;
    if items == [] {
    } else {
      SanitizedIsJsonIff(js, items[0]);
      ItemsAreJsonIff(js, items[1..]);
      assert SanitizeItems(js, items).value[1..] == SanitizeItems(js, items[1..]).value;
    }
  }

  lemma {:induction false} FieldsAreJsonIff(js: Js, fields: seq<Field>)
    requires SanitizeFields(js, fields).Some?
    ensures var clean := SanitizeFields(js, fields).value;
      && NoConstructorInFields(clean) && AllFieldsClean(clean, false)
      && (AllFieldsClean(clean, true) <==> !SomeFieldLeaks(js, fields))
    decreases fields, 0
  {
    hide Sanitize, Leaks, IsClean, NoConstructorKey;
    if fields == [] {
    } else {
      FieldsAreJsonIff(js, fields[1..]);
      if !Skipped(fields[0]) {
        SanitizedIsJsonIff(js, fields[0].value);
        assert SanitizeFields(js, fields).value[1..] == SanitizeFields(js, fields[1..]).value;
      }
    }
  }

  /** Nothing inside is an invalid Date, an Error without a stack, or an object whose toNumber throws. */
  predicate IsTame(v: Value)
    decreases v, 1
  {
    match v
    case Date(iso, _) => iso.Some?
    case Error(_, _, stack) => stack.Some?
    case Arr(items) => AllTame(items)
    case Record(fields, _) => ToNumberMethod(v) != Some(Throws) && AllFieldsTame(fields)
    case _ => true
  }

  predicate AllTame(items: seq<Value>)
    decreases items, 0
  {
    items != [] ==> IsTame(items[0]) && AllTame(items[1..])
  }

  predicate AllFieldsTame(fields: seq<Field>)
    decreases fields, 0
  {
    fields != [] ==> IsTame(fields[0].value) && AllFieldsTame(fields[1..])
  }

  /** Every tame tree sanitises, without throwing, to plain JSON. */
  lemma {:induction false} TameTreeBecomesJson(js: Js, v: Value)
    requires IsTame(v)
    ensures Sanitize(js, v).Some? && IsJson(Sanitize(js, v).value)
    decreases v, 1
  {
    hide NumberIn, NumberOf, ToNumberMethod, JoinItems, TextOf;
    match v
    case Arr(items) => TameItemsBecomeJson(js, items);
    case Record(fields, _) => TameFieldsBecomeJson(js, fields);
    case Error(_, _, _) => ErrorCopyIsJsonIff(js, v);
    case _ =>
  }

  lemma {:induction false} TameItemsBecomeJson(js: Js, items: seq<Value>)
    requires AllTame(items)
    ensures SanitizeItems(js, items).Some? && AllClean(SanitizeItems(js, items).value, true)
    decreases items, 0
  {
    hide Sanitize, IsTame, IsClean;
    if items == [] {
    } else {
      TameTreeBecomesJson(js, items[0]);
      TameItemsBecomeJson(js, items[1..]);
      assert SanitizeItems(js, items).value[1..] == SanitizeItems(js, items[1..]).value;
    }
  }

  lemma {:induction false} TameFieldsBecomeJson(js: Js, fields: seq<Field>)
    requires AllFieldsTame(fields)
    ensures SanitizeFields(js, fields).Some? && AllFieldsClean(SanitizeFields(js, fields).value, true)
    decreases fields, 0
  {
    hide Sanitize, IsTame, IsClean;
    if fields == [] {
    } else {
      TameTreeBecomesJson(js, fields[0].value);
      TameFieldsBecomeJson(js, fields[1..]);
      if !Skipped(fields[0]) {
        assert SanitizeFields(js, fields).value[1..] == SanitizeFields(js, fields[1..]).value;
      }
    }
  }

  // ------------------------------------------------------------------ what the result stands for

  /** A number stands for an equal number, for what toNumber gives, for a stored decimal, or for a numeric text. */
  ghost predicate StandsAsNumber(js: Js, v: Value, x: real) {
    match v
    case Num(y) => y == x
    case BigInt(i) => i as real == x
    case Arr(items) => NumberIn(js, JoinItems(js, items, ",")) == Some(x)
    case Record(fields, _) => NumberRecord(js, v) && NumberFrom(js, v, x)
    case _ => false
  }

  /** What the object's toString gives. */
  function OwnText(v: Value): Option<string>
    requires v.Record?
  {
    match ToTextMethod(v)
    case Some(Gives(text)) => Some(text)
    case _ => None
  }

  ghost predicate NumberFrom(js: Js, v: Value, x: real)
    requires v.Record?
  {
    if ToNumberMethod(v).Some? then ToNumberMethod(v) == Some(Gives(x))
    else if DecimalLike(v.fields) then x == Rebuilt(js, v.fields)
    else OwnText(v).Some? && Trim(OwnText(v).value) != "" && js.parse(OwnText(v).value) == Some(x)
  }

  /** The object is taken for a number, whatever its fields hold. */
  ghost predicate NumberRecord(js: Js, v: Value)
    requires v.Record?
  {
    exists x :: NumberFrom(js, v, x)
  }

  /** A text stands for itself, a valid Date's ISO form, a symbol or a function, or for an object that could not be
      read. */
  ghost predicate StandsAsText(js: Js, v: Value, s: string) {
    match v
    case Str(t) => t == s
    case Date(iso, _) => iso == Some(s)
    case Symbol(description) => s == "Symbol(" + description + ")"
    case Func(_, _, _) => s == "[Function]"
    case Record(fields, _) => Unreadable(js, v) && OwnText(v) == Some(s)
    case _ => false
  }

  /** toNumber throws, or the object is no number and a field that is not skipped cannot be sanitised. */
  ghost predicate Unreadable(js: Js, v: Value)
    requires v.Record?
    decreases v, 0
  {
    ToNumberMethod(v) == Some(Throws) || (!NumberRecord(js, v) && SomeFieldFails(js, v.fields))
  }

  /** The pass throws: a record that cannot be read has no text either. */
  ghost predicate Fails(js: Js, v: Value)
    decreases v, 1
  {
    match v
    case Arr(items) => NumberIn(js, JoinItems(js, items, ",")).None? && SomeItemFails(js, items)
    case Record(fields, _) => Unreadable(js, v) && OwnText(v).None?
    case _ => false
  }

  ghost predicate SomeItemFails(js: Js, items: seq<Value>)
    decreases items, 0
  {
    items != [] && (Fails(js, items[0]) || SomeItemFails(js, items[1..]))
  }

  ghost predicate SomeFieldFails(js: Js, fields: seq<Field>)
    decreases fields, 0
  {
    fields != [] &&
      ((fields[0].key != "constructor" && !fields[0].value.Undefined? && Fails(js, fields[0].value))
       || SomeFieldFails(js, fields[1..]))
  }

  /** What the result of a pass says about its input, node by node. */
  ghost predicate Stands(js: Js, v: Value, r: Value)
    decreases v, 1
  {
    match r
    case Null => v.Undefined? || v.Null?
    case Bool(b) => v == Bool(b)
    case Num(x) => StandsAsNumber(js, v, x)
    case Str(s) => StandsAsText(js, v, s)
    case Date(iso, _) => iso.None? && v == r
    case Arr(out) => v.Arr? && NumberIn(js, JoinItems(js, v.items, ",")).None? && StandsItems(js, v.items, out)
    case Record(out, proto) =>
      && proto == PLAIN
      && (if v.Error? then out == ErrorCopy(v)
          else v.Record? && !Unreadable(js, v) && !NumberRecord(js, v) && StandsFields(js, v.fields, out))
    case _ => false
  }

  function ErrorCopy(v: Value): seq<Field>
    requires v.Error?
  {
    [Field("name", Str(v.name)), Field("message", Str(v.message)),
     Field("stack", if v.stack.Some? then Str(v.stack.value) else Undefined)]
  }

  /** Item by item, in order. */
  ghost predicate StandsItems(js: Js, items: seq<Value>, out: seq<Value>)
    decreases items, 0
  {
    |items| == |out| && (items != [] ==> Stands(js, items[0], out[0]) && StandsItems(js, items[1..], out[1..]))
  }

  /** Field by field, in order, without the constructor key and undefined values. */
  ghost predicate StandsFields(js: Js, fields: seq<Field>, out: seq<Field>)
    decreases fields, 0
  {
    if fields == [] then out == []
    else if fields[0].key == "constructor" || fields[0].value.Undefined? then StandsFields(js, fields[1..], out)
    else
      && out != [] && out[0].key == fields[0].key && Stands(js, fields[0].value, out[0].value)
      && StandsFields(js, fields[1..], out[1..])
  }

  /** Taken for a number means that there is one, which the pass finds. */
  lemma NumberOfIff(js: Js, v: Value)
    requires v.Record? && ToNumberMethod(v) != Some(Throws)
    ensures NumberRecord(js, v) <==> NumberOf(js, v).Some?
    ensures forall x :: NumberFrom(js, v, x) <==> NumberOf(js, v) == Some(x)
  {
    hide Trim, Lookup, Rebuilt, DecimalLike, ToTextMethod, ToNumberMethod;
    var number, text := ToNumberMethod(v), ToTextMethod(v);
    assert number.Some? ==> number == Some(Gives(number.value.value));
    assert OwnText(v) == if text.Some? && text.value.Gives? then Some(text.value.value) else None;
    if NumberOf(js, v).Some? { assert NumberFrom(js, v, NumberOf(js, v).value); }
  }

  lemma ThrowingIsNoNumber(js: Js, v: Value)
    requires v.Record? && ToNumberMethod(v) == Some(Throws)
    ensures !NumberRecord(js, v)
  {}

  lemma RecordText(js: Js, v: Value)
    requires v.Record?
    ensures AsText(js, v) == if OwnText(v).Some? then Some(Str(OwnText(v).value)) else None
  {
    hide ToTextMethod;
  }

  /** One pass returns exactly what stands for its input, and throws exactly when nothing can. */
  lemma {:induction false} SanitizedStandsIff(js: Js, v: Value, r: Value)
    ensures Sanitize(js, v) == Some(r) <==> !Fails(js, v) && Stands(js, v, r)
    decreases v, 1
  {
    hide NumberIn, NumberOf, ToNumberMethod, ToTextMethod, JoinItems, TextOf, NumberFrom, OwnText;
    match v
    case Arr(items) =>
      SanitizedItemsFail(js, items);
      if r.Arr? { SanitizedItemsStandIff(js, items, r.items); }
    case Record(fields, _) => RecordStandsIff(js, v, r);
    case _ =>
  }

  lemma {:induction false} SanitizedFails(js: Js, v: Value)
    ensures Sanitize(js, v).None? <==> Fails(js, v)
    decreases v, 1
  {
    hide NumberIn, NumberOf, ToNumberMethod, ToTextMethod, JoinItems, TextOf, NumberFrom, OwnText, NumberRecord;
    match v
    case Arr(items) => SanitizedItemsFail(js, items);
    case Record(fields, _) =>
      SanitizedFieldsFail(js, fields);
      RecordText(js, v);
      if ToNumberMethod(v) != Some(Throws) { NumberOfIff(js, v); }
    case _ =>
  }

  lemma {:induction false} SanitizedItemsFail(js: Js, items: seq<Value>)
    ensures SanitizeItems(js, items).None? <==> SomeItemFails(js, items)
    decreases items, 0
  {
    hide Sanitize, Fails;
    if items == [] {
    } else {
      SanitizedFails(js, items[0]);
      SanitizedItemsFail(js, items[1..]);
    }
  }

  lemma {:induction false} SanitizedFieldsFail(js: Js, fields: seq<Field>)
    ensures SanitizeFields(js, fields).None? <==> SomeFieldFails(js, fields)
    decreases fields, 0
  {
    hide Sanitize, Fails;
    if fields == [] {
    } else {
      SanitizedFieldsFail(js, fields[1..]);
      if !Skipped(fields[0]) { SanitizedFails(js, fields[0].value); }
    }
  }

  lemma {:induction false} RecordStandsIff(js: Js, v: Value, r: Value)
    requires v.Record?
    ensures Sanitize(js, v) == Some(r) <==> !Fails(js, v) && Stands(js, v, r)
    decreases v, 0
  {
    hide NumberIn, NumberOf, ToNumberMethod, ToTextMethod, JoinItems, TextOf, NumberFrom, OwnText, NumberRecord, AsText;
    SanitizedFieldsFail(js, v.fields);
    RecordText(js, v);
    if r.Record? { SanitizedFieldsStandIff(js, v.fields, r.fields); }
    if ToNumberMethod(v) == Some(Throws) {
      ThrowingIsNoNumber(js, v);
    } else {
      NumberOfIff(js, v);
    }
  }

  lemma {:induction false} SanitizedItemsStandIff(js: Js, items: seq<Value>, out: seq<Value>)
    ensures SanitizeItems(js, items) == Some(out) <==> !SomeItemFails(js, items) && StandsItems(js, items, out)
    decreases items, 0
  {
    hide Sanitize, Fails, Stands;
    if items == [] {
    } else {
      SanitizedFails(js, items[0]);
      SanitizedItemsFail(js, items[1..]);
      if out != [] {
        SanitizedStandsIff(js, items[0], out[0]);
        SanitizedItemsStandIff(js, items[1..], out[1..]);
        assert out == [out[0]] + out[1..];
      }
    }
  }

  lemma {:induction false} SanitizedFieldsStandIff(js: Js, fields: seq<Field>, out: seq<Field>)
    ensures SanitizeFields(js, fields) == Some(out) <==> !SomeFieldFails(js, fields) && StandsFields(js, fields, out)
    decreases fields, 0
  {
    hide Sanitize, Fails, Stands;
    if fields == [] {
    } else if Skipped(fields[0]) {
      SanitizedFieldsStandIff(js, fields[1..], out);
    } else {
      SanitizedFails(js, fields[0].value);
      SanitizedFieldsFail(js, fields[1..]);
      if out != [] {
        SanitizedStandsIff(js, fields[0].value, out[0].value);
        SanitizedFieldsStandIff(js, fields[1..], out[1..]);
        assert out == [Field(out[0].key, out[0].value)] + out[1..];
      }
    }
  }

  predicate FirstNamed(fields: seq<Field>, i: nat, key: string) {
    i < |fields| && fields[i].key == key && forall j :: 0 <= j < i ==> fields[j].key != key
  }

  lemma {:induction false} LookupIff(fields: seq<Field>, key: string)
    ensures forall i: nat :: FirstNamed(fields, i, key) ==> Lookup(fields, key) == Some(fields[i].value)
    ensures Lookup(fields, key).None? <==> forall i :: 0 <= i < |fields| ==> fields[i].key != key
  {
    if fields == [] {
    } else {
      LookupIff(fields[1..], key);
      assert forall i :: 0 < i < |fields| ==> fields[i] == fields[1..][i - 1];
      forall i: nat | FirstNamed(fields, i, key) ensures Lookup(fields, key) == Some(fields[i].value) {
        if i > 0 { assert FirstNamed(fields[1..], i - 1, key); }
      }
    }
  }

  /** A method is looked for among the object's own fields first and then in its prototype; an own field that is no
      function hides the prototype's method. */
  lemma MethodsAreFound(v: Value)
    requires v.Record?
    ensures (forall i :: 0 <= i < |v.fields| ==> v.fields[i].key != "toNumber") ==>
      ToNumberMethod(v) == v.proto.toNumber
    ensures (forall i :: 0 <= i < |v.fields| ==> v.fields[i].key != "toString") ==>
      ToTextMethod(v) == v.proto.toText
    ensures forall i: nat :: FirstNamed(v.fields, i, "toNumber") ==>
      ToNumberMethod(v) == if v.fields[i].value.Func? then Some(v.fields[i].value.asNumber) else None
    ensures forall i: nat :: FirstNamed(v.fields, i, "toString") ==>
      ToTextMethod(v) == if v.fields[i].value.Func? then Some(v.fields[i].value.asText) else None
  {
    hide Lookup, FirstNamed;
    LookupIff(v.fields, "toNumber");
    LookupIff(v.fields, "toString");
  }

  /** A Decimal object, whose prototype offers toNumber, becomes that number, whatever its fields hold. */
  lemma DecimalObjectBecomesNumber(js: Js, v: Value, x: real)
    requires v.Record? && v.proto.toNumber == Some(Gives(x))
    requires forall i :: 0 <= i < |v.fields| ==> v.fields[i].key != "toNumber"
    ensures Sanitize(js, v) == Some(Num(x))
  {
    hide Lookup, ToTextMethod, ToNumberMethod, DecimalLike;
    MethodsAreFound(v);
  }

  /** What String() makes of each kind of value, as section 7.1.17 of ECMA-262 has it. */
  lemma TextsOfValues(js: Js, v: Value)
    ensures v.Undefined? ==> TextOf(js, v) == Some("undefined")
    ensures v.Null? ==> TextOf(js, v) == Some("null")
    ensures v == Bool(true) ==> TextOf(js, v) == Some("true")
    ensures v == Bool(false) ==> TextOf(js, v) == Some("false")
    ensures v.Num? ==> TextOf(js, v) == Some(js.format(v.x))
    ensures v.BigInt? ==> TextOf(js, v) == Some(js.format(v.i as real))
    ensures v.Str? ==> TextOf(js, v) == Some(v.s)
    ensures v.Symbol? ==> TextOf(js, v) == Some("Symbol(" + v.description + ")")
    ensures v.Func? ==> TextOf(js, v) == Some(v.source)
    ensures v.Date? ==> TextOf(js, v) == Some(v.text)
    ensures v.Error? && v.name != "" && v.message != "" ==> TextOf(js, v) == Some(v.name + ": " + v.message)
    ensures v.Error? && v.name == "" ==> TextOf(js, v) == Some(v.message)
    ensures v.Error? && v.message == "" ==> TextOf(js, v) == Some(v.name)
    ensures v.Arr? ==> TextOf(js, v) == JoinItems(js, v.items, ",")
    ensures v.Record? ==> TextOf(js, v) == OwnText(v)
  {
    hide ToTextMethod, JoinItems;
  }

  /** A stored decimal that cannot be rebuilt becomes 0: its digits are no array and no number, or there are none, or
      the array has no text, or no numeral reads as a number. */
  lemma BrokenDecimalIsZero(js: Js, fields: seq<Field>)
    requires DecimalLike(fields)
    requires var d := Lookup(fields, "d").value;
      || !(d.Arr? || d.Num?) || d == Arr([]) || d == Num(0.0)
      || (d.Arr? && JoinItems(js, d.items, "").None?) || forall s :: js.parse(s).None?
    ensures Rebuilt(js, fields) == 0.0
  {
    hide Lookup, JoinItems;
  }

  /** How an item prints inside the text of its array. */
  function ItemText(js: Js, item: Value): Option<string> {
    match item
    case Undefined | Null => Some("")
    case Symbol(_) => None
    case _ => TextOf(js, item)
  }

  /** The text of an array is the texts of its items with the separator between them, if all of them have one. */
  lemma {:induction false} ItemsAreJoined(js: Js, items: seq<Value>, sep: string, texts: seq<string>)
    requires |texts| == |items|
    ensures (forall i :: 0 <= i < |items| ==> ItemText(js, items[i]) == Some(texts[i]))
      ==> JoinItems(js, items, sep) == Some(Join(texts, sep))
    ensures (exists i :: 0 <= i < |items| && ItemText(js, items[i]).None?) ==> JoinItems(js, items, sep).None?
    decreases |items|
  {
    hide TextOf, ItemText;
    if items == [] {
    } else {
      ItemsAreJoined(js, items[1..], sep, texts[1..]);
      FirstItemText(js, items, sep);
      assert forall i :: 0 < i < |items| ==> items[i] == items[1..][i - 1] && texts[i] == texts[1..][i - 1];
    }
  }

  lemma FirstItemText(js: Js, items: seq<Value>, sep: string)
    requires items != []
    ensures var first, rest := ItemText(js, items[0]), JoinItems(js, items[1..], sep);
      JoinItems(js, items, sep)
      == if first.None? || rest.None? then None
         else Some(if |items| == 1 then first.value else first.value + sep + rest.value)
  {
    hide TextOf;
  }

  // ------------------------------------------------------------------------- what is kept

  /** A record that stays a record keeps the order of its fields: every field but the skipped ones reads back
      as its own sanitised value, and no field is made up. */
  lemma {:induction false} FieldsReadBack(js: Js, fields: seq<Field>, key: string)
    requires SanitizeFields(js, fields).Some?
    ensures var clean := SanitizeFields(js, fields).value; var found := Lookup(fields, key);
      && (found.None? || key == "constructor" ==> Lookup(clean, key) == None)
      && (found.Some? && key != "constructor" && !found.value.Undefined? ==>
            Lookup(clean, key).Some? && Lookup(clean, key) == Sanitize(js, found.value))
    decreases |fields|
  {
    hide Sanitize;
    if fields == [] {
    } else {
      FieldsReadBack(js, fields[1..], key);
      if !Skipped(fields[0]) {
        assert SanitizeFields(js, fields).value[1..] == SanitizeFields(js, fields[1..]).value;
      }
    }
  }

  /** An array that stays an array keeps its length and each item its place. */
  lemma {:induction false} ItemsReadBack(js: Js, items: seq<Value>)
    requires SanitizeItems(js, items).Some?
    ensures var clean := SanitizeItems(js, items).value;
      |clean| == |items| && forall i :: 0 <= i < |items| ==> Sanitize(js, items[i]) == Some(clean[i])
    decreases |items|
  {
    hide Sanitize;
    if items == [] {
    } else {
      ItemsReadBack(js, items[1..]);
      assert forall i :: 0 < i < |items| ==> items[i] == items[1..][i - 1];
    }
  }

  /** The text of an array is read before its items: an array of one number becomes that number, if the
      number reads back from its own text. */
  lemma SingletonCollapses(js: Js, x: real)
    requires Trim(js.format(x)) != "" && js.parse(js.format(x)) == Some(x)
    ensures Sanitize(js, Arr([Num(x)])) == Some(Num(x))
  {
    hide Trim;
    NumberStays(js, x);
    SingletonPass(js, Num(x));
    assert [Num(x)][1..] == [];
    assert JoinItems(js, [], ",") == Some("");
    assert JoinItems(js, [Num(x)], ",") == Some(js.format(x));
  }

  // ------------------------------------------------------------------------- a pass over JSON

  function Size(v: Value): nat
    decreases v, 1
  {
    match v
    case Arr(items) => 1 + ItemsSize(items)
    case Record(fields, _) => 1 + FieldsSize(fields)
    case _ => 1
  }

  function ItemsSize(items: seq<Value>): nat
    decreases items, 0
  {
    if items == [] then 0 else Size(items[0]) + ItemsSize(items[1..])
  }

  function FieldsSize(fields: seq<Field>): nat
    decreases fields, 0
  {
    if fields == [] then 0 else 1 + Size(fields[0].value) + FieldsSize(fields[1..])
  }

  /** Number("[object Object]") is NaN. */
  predicate ObjectTextIsNaN(js: Js) {
    js.parse("[object Object]").None?
  }

  /** What a pass leaves alone: no array prints as a number, no object looks like a stored decimal, and no field
      is skipped. */
  predicate Settled(js: Js, v: Value)
    decreases v, 1
  {
    match v
    case Arr(items) => NumberIn(js, JoinItems(js, items, ",")).None? && AllSettled(js, items)
    case Record(fields, _) => !DecimalLike(fields) && AllFieldsSettled(js, fields)
    case _ => true
  }

  predicate AllSettled(js: Js, items: seq<Value>)
    decreases items, 0
  {
    items != [] ==> Settled(js, items[0]) && AllSettled(js, items[1..])
  }

  predicate AllFieldsSettled(js: Js, fields: seq<Field>)
    decreases fields, 0
  {
    fields != [] ==>
      !Skipped(fields[0]) && Settled(js, fields[0].value) && AllFieldsSettled(js, fields[1..])
  }

  lemma {:induction false} CleanLookup(fields: seq<Field>, key: string, strict: bool)
    requires AllFieldsClean(fields, strict)
    ensures Lookup(fields, key).Some? ==> !Lookup(fields, key).value.Func? && FieldsSize(fields) >= 2
  {
    if fields == [] {
    } else {
      assert Size(fields[0].value) >= 1;
      if fields[0].key != key { CleanLookup(fields[1..], key, strict); }
    }
  }

  /** A plain object has no callable methods of its own, and its text is not a number. */
  lemma CleanRecordNumber(js: Js, v: Value, strict: bool)
    requires v.Record? && IsClean(v, strict) && ObjectTextIsNaN(js)
    ensures ToNumberMethod(v) == None
    ensures NumberOf(js, v) == if DecimalLike(v.fields) then Some(Rebuilt(js, v.fields)) else None
    ensures DecimalLike(v.fields) ==> Size(v) > 1
  {
    hide Trim, Rebuilt;
    CleanLookup(v.fields, "toNumber", strict);
    CleanLookup(v.fields, "toString", strict);
    CleanLookup(v.fields, "d", strict);
  }

  /** A pass over a clean value does not throw and returns a clean one, plain JSON from plain JSON: either the
      identical tree, when it is settled, or a strictly smaller one. */
  lemma {:induction false} PassShrinks(js: Js, v: Value, strict: bool)
    requires IsClean(v, strict) && ObjectTextIsNaN(js)
    ensures Sanitize(js, v).Some? && IsClean(Sanitize(js, v).value, strict)
    ensures if Settled(js, v) then Sanitize(js, v) == Some(v) else Size(Sanitize(js, v).value) < Size(v)
    decreases v, 1
  {
    hide NumberIn, NumberOf, JoinItems, TextOf, Rebuilt, DecimalLike, Lookup, ToNumberMethod, ObjectTextIsNaN;
    match v
    case Arr(items) =>
      PassShrinksItems(js, items, strict);
      if NumberIn(js, JoinItems(js, items, ",")).Some? { NumericArrayIsNotEmpty(js, items); }
    case Record(fields, _) =>
      CleanRecordNumber(js, v, strict);
      PassShrinksFields(js, fields, strict);
    case _ =>
  }

  lemma NumericArrayIsNotEmpty(js: Js, items: seq<Value>)
    requires NumberIn(js, JoinItems(js, items, ",")).Some?
    ensures ItemsSize(items) > 0
  {
    hide Trim, TextOf;
    assert Trim("") == "";
    if items != [] { assert Size(items[0]) > 0; }
  }

  lemma {:induction false} PassShrinksItems(js: Js, items: seq<Value>, strict: bool)
    requires AllClean(items, strict) && ObjectTextIsNaN(js)
    ensures SanitizeItems(js, items).Some? && AllClean(SanitizeItems(js, items).value, strict)
    ensures if AllSettled(js, items) then SanitizeItems(js, items) == Some(items)
            else ItemsSize(SanitizeItems(js, items).value) < ItemsSize(items)
    decreases items, 0
  {
    hide Sanitize, Settled, IsClean, Size, ObjectTextIsNaN;
    if items == [] {
    } else {
      PassShrinks(js, items[0], strict);
      PassShrinksItems(js, items[1..], strict);
      assert items == [items[0]] + items[1..];
      assert SanitizeItems(js, items).value[1..] == SanitizeItems(js, items[1..]).value;
    }
  }

  lemma {:induction false} PassShrinksFields(js: Js, fields: seq<Field>, strict: bool)
    requires AllFieldsClean(fields, strict) && ObjectTextIsNaN(js)
    ensures SanitizeFields(js, fields).Some? && AllFieldsClean(SanitizeFields(js, fields).value, strict)
    ensures if AllFieldsSettled(js, fields) then SanitizeFields(js, fields) == Some(fields)
            else FieldsSize(SanitizeFields(js, fields).value) < FieldsSize(fields)
    decreases fields, 0
  {
    hide Sanitize, Settled, Size, IsClean, ObjectTextIsNaN;
    if fields == [] {
    } else {
      PassShrinksFields(js, fields[1..], strict);
      if !Skipped(fields[0]) {
        PassShrinks(js, fields[0].value, strict);
        assert fields == [Field(fields[0].key, fields[0].value)] + fields[1..];
        assert SanitizeFields(js, fields).value[1..] == SanitizeFields(js, fields[1..]).value;
      }
    }
  }

  /** The n-th repetition of the pass. */
  function Repeated(js: Js, v: Value, n: nat): Option<Value>
    decreases n
  {
    if n == 0 then Some(v)
    else match Sanitize(js, v)
      case None => None
      case Some(once) => Repeated(js, once, n - 1)
  }

  /** Repeated passes over a clean value reach a clean fixed point, after fewer passes than it has nodes. */
  lemma {:induction false} PassesReachFixedPoint(js: Js, v: Value, strict: bool) returns (n: nat)
    requires IsClean(v, strict) && ObjectTextIsNaN(js)
    ensures n < Size(v) && Repeated(js, v, n).Some? && IsClean(Repeated(js, v, n).value, strict)
    ensures Sanitize(js, Repeated(js, v, n).value) == Repeated(js, v, n)
    decreases Size(v)
  {
    hide Sanitize, IsClean, Settled, ObjectTextIsNaN;
    PassShrinks(js, v, strict);
    if Settled(js, v) {
      assert Size(v) > 0;
      n := 0;
    } else {
      var once := Sanitize(js, v).value;
      var m := PassesReachFixedPoint(js, once, strict);
      n := m + 1;
    }
  }

  /** So do repeated passes over any value at all, unless the first pass throws; the fixed point is plain JSON if
      the first pass lets nothing else through. */
  lemma AnyPassesReachFixedPoint(js: Js, v: Value) returns (n: nat)
    requires Sanitize(js, v).Some? && ObjectTextIsNaN(js)
    ensures n <= Size(Sanitize(js, v).value) && Repeated(js, v, n).Some?
    ensures Sanitize(js, Repeated(js, v, n).value) == Repeated(js, v, n)
    ensures !Leaks(js, v) ==> IsJson(Repeated(js, v, n).value)
  {
    hide Sanitize, IsClean, Leaks, ObjectTextIsNaN;
    SanitizedIsJsonIff(js, v);
    var m := PassesReachFixedPoint(js, Sanitize(js, v).value, !Leaks(js, v));
    n := m + 1;
  }

  lemma {:induction false} FixedStays(js: Js, v: Value, n: nat)
    requires Sanitize(js, v) == Some(v)
    ensures Repeated(js, v, n) == Some(v)
    decreases n
  {
    hide Sanitize;
    if n == 0 {
    } else {
      FixedStays(js, v, n - 1);
    }
  }

  /** An Error keeps its name and message, and its stack if it has one, through all later passes, and from the
      second pass on it is plain JSON. */
  lemma ErrorIsKept(js: Js, v: Value, n: nat)
    requires v.Error? && ObjectTextIsNaN(js) && n >= 2
    ensures Repeated(js, v, n).Some? && IsJson(Repeated(js, v, n).value) && Repeated(js, v, n).value.Record?
    ensures var kept := Repeated(js, v, n).value.fields;
      && Lookup(kept, "name") == Some(Str(v.name)) && Lookup(kept, "message") == Some(Str(v.message))
      && Lookup(kept, "stack") == if v.stack.Some? then Some(Str(v.stack.value)) else None
  {
    var two := [Field("name", Str(v.name)), Field("message", Str(v.message))];
    var fields := if v.stack.Some? then two + [Field("stack", Str(v.stack.value))] else two;
    SecondCopy(js, v, fields);
    TextRecordStays(js, fields);
    assert Repeated(js, v, n) == Repeated(js, Sanitize(js, v).value, n - 1);
    assert Repeated(js, Sanitize(js, v).value, n - 1) == Repeated(js, Record(fields, PLAIN), n - 2);
    FixedStays(js, Record(fields, PLAIN), n - 2);
    LookupTexts(fields, "name");
    LookupTexts(fields, "message");
    LookupTexts(fields, "stack");
  }

  predicate AllTexts(fields: seq<Field>) {
    forall i :: 0 <= i < |fields| ==> fields[i].value.Str? && fields[i].key in {"name", "message", "stack"}
  }

  lemma LookupTexts(fields: seq<Field>, key: string)
    requires 2 <= |fields| <= 3
    ensures Lookup(fields, key)
      == if fields[0].key == key then Some(fields[0].value)
         else if fields[1].key == key then Some(fields[1].value)
         else if |fields| == 3 && fields[2].key == key then Some(fields[2].value) else None
  {
    if |fields| == 3 {
      LookupInThree(fields, key);
    } else {
      assert fields[1..][1..] == [];
      assert Lookup(fields[1..], key) == if fields[1].key == key then Some(fields[1].value) else None;
    }
  }

  /** A record of texts under these keys is settled. */
  lemma TextRecordStays(js: Js, fields: seq<Field>)
    requires 2 <= |fields| <= 3 && AllTexts(fields) && ObjectTextIsNaN(js)
    ensures IsJson(Record(fields, PLAIN)) && Sanitize(js, Record(fields, PLAIN)) == Some(Record(fields, PLAIN))
  {
    hide ObjectTextIsNaN, Sanitize;
    TextsAreSettled(js, fields);
    LookupTexts(fields, "d");
    PassShrinks(js, Record(fields, PLAIN), true);
  }

  lemma {:induction false} TextsAreSettled(js: Js, fields: seq<Field>)
    requires AllTexts(fields)
    ensures AllFieldsClean(fields, true) && AllFieldsSettled(js, fields)
  {
    if fields == [] {
    } else {
      TextsAreSettled(js, fields[1..]);
    }
  }

  lemma SecondCopy(js: Js, v: Value, fields: seq<Field>)
    requires v.Error? && ObjectTextIsNaN(js)
    requires var two := [Field("name", Str(v.name)), Field("message", Str(v.message))];
      fields == if v.stack.Some? then two + [Field("stack", Str(v.stack.value))] else two
    ensures Sanitize(js, v).Some? && Sanitize(js, Sanitize(js, v).value) == Some(Record(fields, PLAIN))
  {
    var copy := Sanitize(js, v).value;
    hide Sanitize, ObjectTextIsNaN;
    if v.stack.Some? {
      assert copy.fields == fields;
      TextRecordStays(js, fields);
    } else {
      var third := Field("stack", Undefined);
      assert copy.fields == fields + [third];
      CopyWithoutStack(js, fields + [third], fields);
      NoNumberInCopy(js, fields + [third]);
      RecordPass(js, fields + [third], fields);
    }
  }

  lemma RecordPass(js: Js, fields: seq<Field>, clean: seq<Field>)
    requires ToNumberMethod(Record(fields, PLAIN)) == None && NumberOf(js, Record(fields, PLAIN)) == None
    requires SanitizeFields(js, fields) == Some(clean)
    ensures Sanitize(js, Record(fields, PLAIN)) == Some(Record(clean, PLAIN))
  {
    hide NumberOf, ToNumberMethod;
  }

  lemma NoNumberInCopy(js: Js, fields: seq<Field>)
    requires |fields| == 3 && ObjectTextIsNaN(js)
    requires fields[0].key == "name" && fields[1].key == "message" && fields[2].key == "stack"
    ensures ToNumberMethod(Record(fields, PLAIN)) == None && NumberOf(js, Record(fields, PLAIN)) == None
  {
    hide Trim, Lookup;
    LookupInThree(fields, "toNumber");
    LookupInThree(fields, "toString");
    LookupInThree(fields, "d");
  }

  lemma CopyWithoutStack(js: Js, copy: seq<Field>, fields: seq<Field>)
    requires |copy| == 3 && copy[..2] == fields && copy[2].value.Undefined?
    requires AllTexts(fields)
    ensures SanitizeFields(js, copy) == Some(fields)
  {
    assert copy[1..][1..][1..] == [];
    var last, tail := copy[1..][1..], copy[1..];
    assert SanitizeFields(js, last[1..]) == Some([]);
    assert last[0] == copy[2] && tail[0] == copy[1] == fields[1] && copy[0] == fields[0];
    assert SanitizeFields(js, last) == Some([]);
    assert SanitizeFields(js, tail) == Some([tail[0]] + []);
    assert [copy[0]] + ([tail[0]] + []) == fields;
  }

  // --------------------------------------------------------------------------- exact decimals

  /** Number() reads every plain decimal numeral as the number it denotes. */
  ghost predicate ReadsNumerals(js: Js) {
    forall s :: Decimal.NumeralValue(s).Some? ==> js.parse(s) == Decimal.NumeralValue(s)
  }

  /** From here on numbers print with an exponent. */
  const EXPONENT_FROM: nat := 1_000_000_000_000_000_000_000

  /** Numbers that are naturals below that print as naturals. */
  ghost predicate PrintsNaturals(js: Js) {
    forall n: nat :: n < EXPONENT_FROM ==> js.format(n as real) == Decimal.Print(n)
  }

  predicate PlainDigits(d: seq<nat>) {
    forall i :: 0 <= i < |d| ==> d[i] < EXPONENT_FROM
  }

  lemma ObjectTextIsNoNumeral(text: string)
    requires text == "[object Object]"
    ensures Decimal.NumeralValue(text).None?
  {
    hide Decimal.Value, Decimal.Mixed;
    var dot := IndexOfChar(text, '.');
    assert dot > 0 && text[..dot][0] == '[';
    assert !Decimal.AllDigits(text[..dot]);
  }

  /** There are hosts like that. */
  lemma SuchHostsExist() returns (js: Js)
    ensures ReadsNumerals(js) && PrintsNaturals(js) && ObjectTextIsNaN(js)
  {
    hide Decimal.NumeralValue, Decimal.Print;
    js := Js((x: real) => if x >= 0.0 then Decimal.Print(x.Floor) else "", (s: string) => Decimal.NumeralValue(s));
    ObjectTextIsNoNumeral("[object Object]");
    forall n: nat ensures js.format(n as real) == Decimal.Print(n) { assert (n as real).Floor == n; }
  }

  function Naturals(d: seq<nat>): seq<Value> {
    if d == [] then [] else [Num(d[0] as real)] + Naturals(d[1..])
  }

  lemma {:induction false} NaturalsJoin(js: Js, d: seq<nat>)
    requires PrintsNaturals(js) && PlainDigits(d)
    ensures |Naturals(d)| == |d|
    ensures JoinItems(js, Naturals(d), "") == Some(Decimal.Concatenated(d))
  {
    if d == [] {
    } else {
      NaturalsJoin(js, d[1..]);
      assert Naturals(d)[1..] == Naturals(d[1..]);
      var tail := Decimal.Concatenated(d[1..]);
      assert Decimal.Print(d[0]) + "" + tail == Decimal.Print(d[0]) + tail;
      assert Decimal.Print(d[0]) + "" == Decimal.Print(d[0]);
    }
  }

  function StoredDecimal(d: seq<nat>, e: int, s: int): seq<Field> {
    [Field("d", Arr(Naturals(d))), Field("e", Num(e as real)), Field("s", Num(s as real))]
  }

  lemma StoredDecimalLookup(d: seq<nat>, e: int, s: int)
    ensures var f := StoredDecimal(d, e, s);
      && Lookup(f, "d") == Some(Arr(Naturals(d))) && Lookup(f, "e") == Some(Num(e as real))
      && Lookup(f, "s") == Some(Num(s as real))
      && Lookup(f, "toNumber") == None && Lookup(f, "toString") == None
  {
    var f := StoredDecimal(d, e, s);
    LookupInThree(f, "d");
    LookupInThree(f, "e");
    LookupInThree(f, "s");
    LookupInThree(f, "toNumber");
    LookupInThree(f, "toString");
  }

  lemma LookupInThree(f: seq<Field>, key: string)
    requires |f| == 3
    ensures Lookup(f, key) == if f[0].key == key then Some(f[0].value)
      else if f[1].key == key then Some(f[1].value)
      else if f[2].key == key then Some(f[2].value) else None
  {
    assert f[1..][1..][1..] == [];
    assert Lookup(f[1..][1..], key) == if f[2].key == key then Some(f[2].value) else None;
  }

  lemma StoredDecimalIsSigned(js: Js, d: seq<nat>, e: int, s: int)
    requires d != [] && PlainDigits(d) && ReadsNumerals(js) && PrintsNaturals(js)
    ensures Sanitize(js, Record(StoredDecimal(d, e, s), PLAIN))
      == Some(Num(Decimal.Signed(s < 0, Decimal.Scaled(Decimal.Value(Decimal.Concatenated(d)), e))))
  {
    hide Decimal.Numeral, Decimal.NumeralValue, Decimal.Signed, Decimal.Scaled, Lookup, JoinItems, StoredDecimal,
      Decimal.Concatenated, Decimal.Value, Naturals;
    StoredDecimalLookup(d, e, s);
    NaturalsJoin(js, d);
    Decimal.NumeralIsSigned(s < 0, Decimal.Concatenated(d), e);
    assert (s as real < 0.0) == (s < 0);
  }

  /** A stored decimal comes back as exactly the number it stands for. */
  lemma StoredDecimalIsExact(js: Js, d: seq<nat>, e: int, s: int)
    requires d != [] && PlainDigits(d) && ReadsNumerals(js) && PrintsNaturals(js)
    ensures Sanitize(js, Record(StoredDecimal(d, e, s), PLAIN))
      == var size := Decimal.Scaled(Decimal.Value(Decimal.Concatenated(d)), e);
         Some(Num(if s < 0 then -size else size))
  {
    hide Sanitize, StoredDecimal, Decimal.Signed, Decimal.Scaled, Decimal.Concatenated, Decimal.Value, PlainDigits,
      ReadsNumerals, PrintsNaturals;
    StoredDecimalIsSigned(js, d, e, s);
    Decimal.SignedIsSigned(s < 0, Decimal.Scaled(Decimal.Value(Decimal.Concatenated(d)), e));
  }

  /** Some decimals are stored with one number in place of the digit list; they come back exactly, too. */
  lemma StoredNumberIsExact(js: Js, n: nat, e: int, s: int, fields: seq<Field>)
    requires n < EXPONENT_FROM && ReadsNumerals(js) && PrintsNaturals(js)
    requires fields == [Field("d", Num(n as real)), Field("e", Num(e as real)), Field("s", Num(s as real))]
    ensures Sanitize(js, Record(fields, PLAIN))
      == var size := Decimal.Scaled(n, e);
         Some(Num(if n == 0 then 0.0 else if s < 0 then -size else size))
  {
    hide Decimal.Numeral, Decimal.NumeralValue, Decimal.Scaled, Lookup, JoinItems, Decimal.Print, Decimal.Value;
    LookupInThree(fields, "d");
    LookupInThree(fields, "e");
    LookupInThree(fields, "s");
    LookupInThree(fields, "toNumber");
    LookupInThree(fields, "toString");
    Decimal.PrintedValue(n);
    Decimal.NumeralHasValue(s < 0, Decimal.Print(n), e);
    assert (s as real < 0.0) == (s < 0);
    assert n == 0 <==> n as real == 0.0;
  }

  lemma PlainRecordIsNoNumber(js: Js, fields: seq<Field>)
    requires Lookup(fields, "toString") == None && ObjectTextIsNaN(js)
    ensures NumberIn(js, JoinItems(js, [Record(fields, PLAIN)], ",")) == None
  {
    hide JoinItems, Trim, Lookup;
    SingletonText(js, Record(fields, PLAIN));
  }

  lemma FiveRecord(js: Js)
    requires ReadsNumerals(js) && PrintsNaturals(js) && ObjectTextIsNaN(js)
    ensures Sanitize(js, Arr([Record(StoredDecimal([5], 0, 1), PLAIN)])) == Some(Arr([Num(5.0)]))
  {
    hide Decimal.Signed, Decimal.Scaled, Decimal.Value, Decimal.Concatenated, Decimal.Print, StoredDecimal, Sanitize,
      ReadsNumerals, PrintsNaturals, ObjectTextIsNaN, JoinItems, NumberIn;
    StoredDecimalIsSigned(js, [5], 0, 1);
    StoredDecimalLookup([5], 0, 1);
    FiveIsFive(js);
    PlainRecordIsNoNumber(js, StoredDecimal([5], 0, 1));
    SingletonPass(js, Record(StoredDecimal([5], 0, 1), PLAIN));
  }

  lemma FiveArray(js: Js)
    requires ReadsNumerals(js) && PrintsNaturals(js)
    ensures Sanitize(js, Arr([Num(5.0)])) == Some(Num(5.0))
  {
    hide Decimal.Print, Sanitize, Trim, ReadsNumerals;
    FiveIsFive(js);
    var five: nat := 5;
    assert js.format(five as real) == Decimal.Print(five);
    hide PrintsNaturals;
    SingletonCollapses(js, 5.0);
  }

  /** One pass is not idempotent, even on plain JSON: an array that holds a stored decimal becomes an
      array with one number, and the next pass turns that array into the number. */
  lemma PassIsNotIdempotent(js: Js)
    requires ReadsNumerals(js) && PrintsNaturals(js) && ObjectTextIsNaN(js)
    ensures var v := Arr([Record(StoredDecimal([5], 0, 1), PLAIN)]);
      Sanitize(js, v) == Some(Arr([Num(5.0)])) && Sanitize(js, Arr([Num(5.0)])) == Some(Num(5.0))
  {
    hide Sanitize, StoredDecimal, ReadsNumerals, PrintsNaturals, ObjectTextIsNaN;
    FiveRecord(js);
    FiveArray(js);
  }

  lemma SingletonText(js: Js, v: Value)
    requires v.Record?
    ensures JoinItems(js, [v], ",") == TextOf(js, v)
  {
    hide TextOf;
    assert [v][1..] == [];
    assert JoinItems(js, [], ",") == Some("");
  }

  lemma SingletonPass(js: Js, v: Value)
    requires Sanitize(js, v).Some?
    ensures var number := NumberIn(js, JoinItems(js, [v], ","));
      Sanitize(js, Arr([v])) == Some(if number.Some? then Num(number.value) else Arr([Sanitize(js, v).value]))
  {
    hide NumberIn, JoinItems;
    assert [v][1..] == [];
    assert SanitizeItems(js, []) == Some([]);
    assert SanitizeItems(js, [v]) == Some([Sanitize(js, v).value] + []);
    assert [Sanitize(js, v).value] + [] == [Sanitize(js, v).value];
  }

  lemma NumberStays(js: Js, x: real)
    ensures Sanitize(js, Num(x)) == Some(Num(x))
  {}

  lemma FiveIsFive(js: Js)
    requires ReadsNumerals(js) && PrintsNaturals(js)
    ensures Decimal.Signed(1 < 0, Decimal.Scaled(Decimal.Value(Decimal.Concatenated([5])), 0)) == 5.0
    ensures JoinItems(js, [Num(5.0)], ",") == Some(Decimal.Print(5))
    ensures Trim(Decimal.Print(5)) != "" && js.parse(Decimal.Print(5)) == Some(5.0)
  {
    hide Decimal.NumeralValue, Decimal.Magnitude, Decimal.Value;
    var five := Decimal.Print(5);
    Decimal.PrintedValue(5);
    assert five == "5";
    assert Decimal.Concatenated([5]) == five + Decimal.Concatenated([]) == five;
    assert Decimal.Pow10(0) == 1;
    Decimal.MagnitudeWithoutPoint(five);
    Decimal.SignedNumeral(false, five);
    assert Decimal.Sign(false) + five == five;
    var n: nat := 5;
    assert js.format(n as real) == five;
    assert JoinItems(js, [Num(5.0)][1..], ",") == Some("");
    assert IsTrimmed(five);
  }

  // ------------------------------------------------------------------------------- the method

  /** The pass as the service runs it: map over an array, a loop that fills a fresh object. */
  method SanitizeForDatabase(js: Js, value: Value) returns (r: Option<Value>)
    ensures r == Sanitize(js, value)
    decreases value, 1
  {
    hide NumberIn, NumberOf, JoinItems, TextOf, DecimalLike, Lookup;
    match value
    case Arr(items) =>
      var number := NumberIn(js, JoinItems(js, items, ","));
      if number.Some? { return Some(Num(number.value)); }
      var mapped := [];
      assert items[0..] == items;
      PrependedNothing(SanitizeItems(js, items));
      for index := 0 to |items|
        invariant SanitizeItems(js, items) == Prepended(mapped, SanitizeItems(js, items[index..]))
      {
        var item := SanitizeForDatabase(js, items[index]);
        assert items[index..][1..] == items[index + 1..];
        if item.None? { return None; }
        PrependedTwice(mapped, [item.value], SanitizeItems(js, items[index + 1..]));
        mapped := mapped + [item.value];
      }
      assert mapped + [] == mapped;
      return Some(Arr(mapped));
    case Record(fields, proto) =>
      if ToNumberMethod(value) == Some(Throws) { return AsText(js, value); }
      var number := NumberOf(js, value);
      if number.Some? { return Some(Num(number.value)); }
      var sanitized := [];
      assert fields[0..] == fields;
      PrependedNothing(SanitizeFields(js, fields));
      for index := 0 to |fields|
        invariant SanitizeFields(js, fields) == Prepended(sanitized, SanitizeFields(js, fields[index..]))
      {
        assert fields[index..][1..] == fields[index + 1..];
        if Skipped(fields[index]) { continue; }
        var val := SanitizeForDatabase(js, fields[index].value);
        if val.None? { return AsText(js, value); }
        PrependedTwice(sanitized, [Field(fields[index].key, val.value)], SanitizeFields(js, fields[index + 1..]));
        sanitized := sanitized + [Field(fields[index].key, val.value)];
      }
      assert sanitized + [] == sanitized;
      return Some(Record(sanitized, PLAIN));
    case _ =>
      return Sanitize(js, value);
  }

  function Prepended<T>(front: seq<T>, rest: Option<seq<T>>): Option<seq<T>> {
    match rest
    case None => None
    case Some(tail) => Some(front + tail)
  }

  lemma PrependedNothing<T>(rest: Option<seq<T>>)
    ensures Prepended([], rest) == rest
  {
    if rest.Some? { assert [] + rest.value == rest.value; }
  }

  lemma PrependedTwice<T>(a: seq<T>, b: seq<T>, rest: Option<seq<T>>)
    ensures Prepended(a, Prepended(b, rest)) == Prepended(a + b, rest)
  {
    if rest.Some? { assert a + (b + rest.value) == a + b + rest.value; }
  }
}
