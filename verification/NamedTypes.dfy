/** Named types: binding nested objects and collections, and reading them back. */
module NamedTypes {
  import opened Chars
  import opened Numbers
  import opened Wrappers

  /** The types of attributes and elements; a NUMBER column may stand for FLOAT. */
  datatype Typ =
    | TextType | NumberType(isFloat: bool) | IntegerType | FloatType | DateType | ClobType | BlobType
    | ObjectType(attrs: seq<Attr>) | CollectionType(elem: Typ)

  datatype Attr = Attr(name: string, typ: Typ)

  /** A value to bind; objects and collections carry the type that they were made for. */
  datatype Val =
    | Null | Text(s: string) | Int(n: int) | Number(text: string) | Float(x: real) | Date(d: int) | Binary(b: seq<bv8>)
    | Object(typ: Typ, fields: seq<Field>) | Collection(typ: Typ, values: seq<Val>) | Other(typeName: string)

  datatype Field = Field(key: string, value: Val)

  /** What the client stores for a value. */
  datatype Stored =
    | SNull | SText(s: string) | SNumber(text: string) | SInt(n: int) | SFloat(x: real) | SDate(d: int)
    | SClob(s: string) | SBlob(b: seq<bv8>) | SObject(typ: Typ, attrs: seq<Stored>)
    | SCollection(typ: Typ, elems: seq<Stored>)

  /** What a value reads as: an object as a hash with a key for each attribute, a collection as a list. */
  datatype Out =
    | ONull | OText(s: string) | OInt(n: int) | ONumber(text: string) | OFloat(x: real) | ODate(d: int)
    | OBinary(b: seq<bv8>) | OHash(pairs: seq<(string, Out)>) | OList(values: seq<Out>)

  datatype NumberOption = OptimalNumbers | StringNumbers | NumericNumbers

  /** The client's number conversions: the text of a number, if it is one, the text of a float, and the integer and the
      float that a number is read as; the conversions of the Qore core to text (None: an exception), integers, floats
      and dates; and the number option of the connection. */
  datatype Client = Client(number: string -> Option<string>, floatText: real -> string, integer: string -> int,
                           double: string -> real, asText: Val -> Option<string>, asInt: Val -> int,
                           asFloat: Val -> real,
                           asDate: Val -> int, option: NumberOption)

  function IntText(n: int): (s: string)
    ensures Canonical(s) && IntegerValue(s) == n
  {
    if n < 0 then
      DecimalTextValue(-n);
      DecimalTextStart(-n);
      assert ("-" + DecimalText(-n))[1..] == DecimalText(-n);
      "-" + DecimalText(-n)
    else
      DecimalTextValue(n);
      if n > 0 then
        DecimalTextStart(n);
        DecimalText(n)
      else DecimalText(n)
  }

  /** The client reads the integers that it wrote. */
  ghost predicate ReadsIntegers(client: Client) {
    forall n :: IsInt64(n) ==> client.integer(IntText(n)) == n
  }

  function NumberOut(client: Client, text: string): Out {
    match client.option
    case OptimalNumbers =>
      (match NumberOptimal(text)
       case IntNumber(n) => OInt(n)
       case TextNumber(t) => ONumber(t))
    case StringNumbers => OText(text)
    case NumericNumbers => ONumber(text)
  }

  function Lower(s: string): (r: string)
    ensures |r| == |s| && forall i :: 0 <= i < |s| ==> r[i] == LowerChar(s[i])
  {
    seq(|s|, i requires 0 <= i < |s| => LowerChar(s[i]))
  }

  predicate HasKey(fields: seq<Field>, key: string) {
    exists k :: 0 <= k < |fields| && fields[k].key == key
  }

  /** The keys of a hash are distinct. */
  predicate DistinctKeys(fields: seq<Field>) {
    forall i, j :: 0 <= i < j < |fields| ==> fields[i].key != fields[j].key
  }

  /** Field `k` is the one for an attribute: its key is the name of the attribute or, if there is no such key, that name
      in lower case. */
  predicate IsFieldFor(fields: seq<Field>, name: string, k: nat) {
    && k < |fields|
    && (fields[k].key == name || (!HasKey(fields, name) && fields[k].key == Lower(name)))
  }

  predicate NoFieldFor(fields: seq<Field>, name: string) {
    !HasKey(fields, name) && !HasKey(fields, Lower(name))
  }

  function FindKey(fields: seq<Field>, key: string): (r: Option<nat>)
    ensures r.Some? ==> r.value < |fields| && fields[r.value].key == key
    ensures r.Some? <==> HasKey(fields, key)
  {
    if fields == [] then None
    else if fields[0].key == key then Some(0)
    else
      assert HasKey(fields, key) ==> HasKey(fields[1..], key) by {
        if k :| 0 <= k < |fields| && fields[k].key == key {
          assert fields[1..][k - 1].key == key;
        }
      }
      match FindKey(fields[1..], key)
      case None => None
      case Some(i) => Some(i + 1)
  }

  /** The field for an attribute: under the name of the attribute, or else under that name in lower case. */
  function FieldFor(fields: seq<Field>, name: string): (r: Option<nat>)
    ensures r.Some? ==> r.value < |fields|
  {
    var i := FindKey(fields, name);
    if i.Some? then i else FindKey(fields, Lower(name))
  }

  /** The field that is found is the one for the attribute, and none is found only if there is none. */
  lemma FieldFound(fields: seq<Field>, name: string)
    requires DistinctKeys(fields)
    ensures forall k: nat :: IsFieldFor(fields, name, k) <==> FieldFor(fields, name) == Some(k)
    ensures NoFieldFor(fields, name) <==> FieldFor(fields, name) == None
  {
    forall k: nat | IsFieldFor(fields, name, k) ensures FieldFor(fields, name) == Some(k) {
      assert HasKey(fields, fields[k].key);
    }
  }

  /* ---- What binding stores ---- */

  /** The text of a value. */
  function TextOf(client: Client, val: Val): Option<string> {
    if val.Text? then Some(val.s) else client.asText(val)
  }

  /** A LOB of the kind that the value makes; the client refuses one that the type does not have. */
  function BoundLob(client: Client, typ: Typ, val: Val): Option<Stored> {
    if val.Binary? then
      if val.b == [] then Some(SNull) else if typ.BlobType? then Some(SBlob(val.b)) else None
    else
      match TextOf(client, val)
      case None => None
      case Some(s) => if s == "" then Some(SNull) else if typ.ClobType? then Some(SClob(s)) else None
  }

  /** The stored form of a value of a scalar type; an empty string and an empty LOB are NULL. */
  function BoundScalar(client: Client, typ: Typ, val: Val): Option<Stored> {
    match typ
    case TextType =>
      (match TextOf(client, val)
       case None => None
       case Some(s) => Some(if s == "" then SNull else SText(s)))
    case NumberType(_) =>
      (match val
       case Int(n) => Some(SNumber(IntText(n)))
       case Number(text) => NumberStored(client.number(text))
       case Text(text) => NumberStored(client.number(text))
       case Float(x) => Some(SNumber(client.floatText(x)))
       case _ => None)
    case IntegerType => Some(SInt(if val.Int? then val.n else client.asInt(val)))
    case FloatType => Some(SFloat(if val.Float? then val.x else client.asFloat(val)))
    case DateType => Some(SDate(if val.Date? then val.d else client.asDate(val)))
    case ClobType => BoundLob(client, typ, val)
    case BlobType => BoundLob(client, typ, val)
    case _ => None
  }

  /** The stored form of a value of a type; None if it cannot be bound. */
  function Bound(client: Client, typ: Typ, val: Val): Option<Stored>
    decreases val, 2, 0
  {
    if val == Null then Some(SNull)
    else if typ.ObjectType? then
      if val.Object? && val.typ == typ && typ.attrs != [] then
        (match BoundAttrs(client, val, |typ.attrs|)
         case None => None
         case Some(stored) => Some(SObject(typ, stored)))
      else None
    else if typ.CollectionType? then
      if val.Collection? && val.typ == typ then
        (match BoundItems(client, val, |val.values|)
         case None => None
         case Some(items) => Some(SCollection(typ, Appended(typ.elem, items))))
      else None
    else BoundScalar(client, typ, val)
  }

  function NumberStored(text: Option<string>): Option<Stored> {
    if text.Some? then Some(SNumber(text.value)) else None
  }

  /** The stored forms of the first `n` attributes; an attribute without a field is NULL. */
  function BoundAttrs(client: Client, val: Val, n: nat): (r: Option<seq<Stored>>)
    requires val.Object? && val.typ.ObjectType? && n <= |val.typ.attrs|
    ensures r.Some? ==> |r.value| == n
    decreases val, 1, n
  {
    if n == 0 then Some([])
    else
      var before := BoundAttrs(client, val, n - 1);
      var i := FieldFor(val.fields, val.typ.attrs[n - 1].name);
      var s := if i.Some? then Bound(client, val.typ.attrs[n - 1].typ, val.fields[i.value].value) else Some(SNull);
      if before.Some? && s.Some? then Some(before.value + [s.value]) else None
  }

  /** The stored forms of the first `n` values of a collection, before they are appended. */
  function BoundItems(client: Client, val: Val, n: nat): (r: Option<seq<Stored>>)
    requires val.Collection? && val.typ.CollectionType? && n <= |val.values|
    ensures r.Some? ==> |r.value| == n
    decreases val, 1, n
  {
    if n == 0 then Some([])
    else
      var before := BoundItems(client, val, n - 1);
      var s := Bound(client, val.typ.elem, val.values[n - 1]);
      if before.Some? && s.Some? then Some(before.value + [s.value]) else None
  }

  /** The latest one that is not NULL. */
  function LastSet(items: seq<Stored>): Stored {
    if items == [] then SNull
    else if items[|items| - 1] != SNull then items[|items| - 1]
    else LastSet(items[..|items| - 1])
  }

  /** What a collection holds when the items were appended through one accessor: an accessor that was set to an object
      keeps the object's indicator, so a NULL behind an object appends the object again. */
  function Appended(elem: Typ, items: seq<Stored>): (r: seq<Stored>)
    ensures |r| == |items|
  {
    if elem.ObjectType? then seq(|items|, i requires 0 <= i < |items| => LastSet(items[..i + 1])) else items
  }

  /** The k-th stored element is the k-th item exactly if no NULL follows an object in a collection of objects. */
  predicate NoNullBehindObject(elem: Typ, items: seq<Stored>) {
    elem.ObjectType? ==> forall i, j :: 0 <= i < j < |items| && items[i] != SNull ==> items[j] != SNull
  }

  lemma {:induction false} LastSetWithoutNulls(items: seq<Stored>)
    requires items != [] && forall i, j :: 0 <= i < j < |items| && items[i] != SNull ==> items[j] != SNull
    ensures LastSet(items) == items[|items| - 1]
  {
    if items[|items| - 1] == SNull {
      var before := items[..|items| - 1];
      if before != [] {
        LastSetWithoutNulls(before);
      }
    }
  }

  lemma {:induction false} LastSetFinds(items: seq<Stored>, i: nat)
    requires i < |items| && items[i] != SNull
    ensures LastSet(items) != SNull
  {
    if items[|items| - 1] == SNull {
      LastSetFinds(items[..|items| - 1], i);
    }
  }

  lemma AppendedInOrder(elem: Typ, items: seq<Stored>)
    ensures Appended(elem, items) == items <==> NoNullBehindObject(elem, items)
  {
    if elem.ObjectType? {
      if i, j :| 0 <= i < j < |items| && items[i] != SNull && items[j] == SNull {
        LastSetFinds(items[..j + 1], i);
        assert Appended(elem, items)[j] == LastSet(items[..j + 1]);
      } else {
        KeptInOrder(elem, items);
      }
    }
  }

  lemma KeptInOrder(elem: Typ, items: seq<Stored>)
    requires elem.ObjectType? && NoNullBehindObject(elem, items)
    ensures Appended(elem, items) == items
  {
    forall k | 0 <= k < |items| ensures Appended(elem, items)[k] == items[k] {
      var prefix := items[..k + 1];
      assert forall i, j :: 0 <= i < j < |prefix| && prefix[i] != SNull ==> prefix[j] != SNull;
      hide LastSet;
      LastSetWithoutNulls(prefix);
    }
  }

  /* ---- What is read back ---- */

  /** What a stored value of a scalar type reads as; numbers in collections are read as 64-bit integers or as floats. */
  function ReadScalar(client: Client, typ: Typ, s: Stored, inCollection: bool): Option<Out> {
    match typ
    case TextType => if s.SText? then Some(OText(s.s)) else None
    case NumberType(isFloat) =>
      if !s.SNumber? then None
      else if inCollection && isFloat then Some(OFloat(client.double(s.text)))
      else if inCollection then Some(OInt(client.integer(s.text)))
      else Some(NumberOut(client, s.text))
    case IntegerType => if s.SInt? then Some(OInt(s.n)) else None
    case FloatType => if s.SFloat? then Some(OFloat(s.x)) else None
    case DateType => if s.SDate? then Some(ODate(s.d)) else None
    case ClobType => if s.SClob? && s.s != "" then Some(OText(s.s)) else None
    case BlobType => if s.SBlob? && s.b != [] then Some(OBinary(s.b)) else None
    case _ => None
  }

  /** What a stored value of a type reads as; None if it cannot be read. */
  function Read(client: Client, typ: Typ, s: Stored, inCollection: bool): Option<Out>
    decreases s, 1, 0
  {
    if s == SNull then Some(ONull)
    else if typ.ObjectType? then
      if !s.SObject? || |s.attrs| != |typ.attrs| || typ.attrs == [] then None
      else
        (match ReadAttrs(client, typ, s, |typ.attrs|)
         case None => None
         case Some(pairs) => Some(OHash(pairs)))
    else if typ.CollectionType? then
      if !s.SCollection? then None
      else
        (match ReadElems(client, typ, s, |s.elems|)
         case None => None
         case Some(values) => Some(OList(values)))
    else ReadScalar(client, typ, s, inCollection)
  }

  function ReadAttrs(client: Client, typ: Typ, s: Stored, n: nat): (r: Option<seq<(string, Out)>>)
    requires typ.ObjectType? && s.SObject? && n <= |typ.attrs| == |s.attrs|
    ensures r.Some? ==> |r.value| == n
    decreases s, 0, n
  {
    if n == 0 then Some([])
    else
      var before := ReadAttrs(client, typ, s, n - 1);
      var out := Read(client, typ.attrs[n - 1].typ, s.attrs[n - 1], false);
      if before.Some? && out.Some? then Some(before.value + [(typ.attrs[n - 1].name, out.value)]) else None
  }

  function ReadElems(client: Client, typ: Typ, s: Stored, n: nat): (r: Option<seq<Out>>)
    requires typ.CollectionType? && s.SCollection? && n <= |s.elems|
    ensures r.Some? ==> |r.value| == n
    decreases s, 0, n
  {
    if n == 0 then Some([])
    else
      var before := ReadElems(client, typ, s, n - 1);
      var out := Read(client, typ.elem, s.elems[n - 1], true);
      if before.Some? && out.Some? then Some(before.value + [out.value]) else None
  }

  /* ---- The round trip ---- */

  /** A value of a type, with numbers that the client and the reader keep. */
  predicate WellTyped(client: Client, typ: Typ, val: Val, inCollection: bool)
    decreases val, 1, 0
  {
    if val == Null then true
    else match typ
      case TextType => val.Text?
      case NumberType(isFloat) =>
        if inCollection && isFloat then val.Float? && client.double(client.floatText(val.x)) == val.x
        else (val.Int? && IsInt64(val.n)) || (!inCollection && val.Number? && client.number(val.text) == Some(val.text))
      case IntegerType => val.Int?
      case FloatType => val.Float?
      case DateType => val.Date?
      case ClobType => val.Text?
      case BlobType => val.Binary?
      case ObjectType(attrs) => val.Object? && val.typ == typ && attrs != [] && AttrsTyped(client, val, |attrs|)
      case CollectionType(_) => val.Collection? && val.typ == typ && ItemsTyped(client, val, |val.values|)
  }

  predicate AttrsTyped(client: Client, val: Val, n: nat)
    requires val.Object? && val.typ.ObjectType? && n <= |val.typ.attrs|
    decreases val, 0, n
  {
    n > 0 ==>
      && AttrsTyped(client, val, n - 1)
      && var i := FieldFor(val.fields, val.typ.attrs[n - 1].name);
         i.Some? ==> WellTyped(client, val.typ.attrs[n - 1].typ, val.fields[i.value].value, false)
  }

  predicate ItemsTyped(client: Client, val: Val, n: nat)
    requires val.Collection? && val.typ.CollectionType? && n <= |val.values|
    decreases val, 0, n
  {
    n > 0 ==> ItemsTyped(client, val, n - 1) && WellTyped(client, val.typ.elem, val.values[n - 1], true)
  }

  /** At every level of nesting, no NULL follows an object in a collection of objects. */
  predicate InOrder(val: Val)
    decreases val, 1, 0
  {
    match val
    case Object(typ, _) => typ.ObjectType? ==> AttrsInOrder(val, |typ.attrs|)
    case Collection(typ, values) =>
      typ.CollectionType? ==> ItemsInOrder(val, |values|) && (typ.elem.ObjectType? ==> NoNullBehindValue(values))
    case _ => true
  }

  predicate NoNullBehindValue(values: seq<Val>) {
    forall i, j :: 0 <= i < j < |values| && values[i] != Null ==> values[j] != Null
  }

  predicate AttrsInOrder(val: Val, n: nat)
    requires val.Object? && val.typ.ObjectType? && n <= |val.typ.attrs|
    decreases val, 0, n
  {
    n > 0 ==>
      && AttrsInOrder(val, n - 1)
      && var i := FieldFor(val.fields, val.typ.attrs[n - 1].name);
         i.Some? ==> InOrder(val.fields[i.value].value)
  }

  predicate ItemsInOrder(val: Val, n: nat)
    requires val.Collection? && val.typ.CollectionType? && n <= |val.values|
    decreases val, 0, n
  {
    n > 0 ==> ItemsInOrder(val, n - 1) && InOrder(val.values[n - 1])
  }

  /** The value itself, with missing attributes, empty strings and empty LOBs turned into NULL. */
  function Expected(client: Client, typ: Typ, val: Val, inCollection: bool): Out
    decreases val, 1, 0
  {
    match val
    case Null => ONull
    case Text(s) => if s == "" then ONull else OText(s)
    case Int(n) => if typ.NumberType? && !inCollection then NumberOut(client, IntText(n)) else OInt(n)
    case Number(text) => NumberOut(client, text)
    case Float(x) => OFloat(x)
    case Date(d) => ODate(d)
    case Binary(b) => if b == [] then ONull else OBinary(b)
    case Other(_) => ONull
    case Object(t, _) => if t.ObjectType? then OHash(ExpectedAttrs(client, val, |t.attrs|)) else ONull
    case Collection(t, values) => if t.CollectionType? then OList(ExpectedItems(client, val, |values|)) else ONull
  }

  function ExpectedAttrs(client: Client, val: Val, n: nat): (r: seq<(string, Out)>)
    requires val.Object? && val.typ.ObjectType? && n <= |val.typ.attrs|
    ensures |r| == n && forall i :: 0 <= i < n ==> r[i].0 == val.typ.attrs[i].name
    decreases val, 0, n
  {
    if n == 0 then []
    else
      var attr := val.typ.attrs[n - 1];
      var i := FieldFor(val.fields, attr.name);
      ExpectedAttrs(client, val, n - 1)
      + [(attr.name, if i.Some? then Expected(client, attr.typ, val.fields[i.value].value, false) else ONull)]
  }

  function ExpectedItems(client: Client, val: Val, n: nat): (r: seq<Out>)
    requires val.Collection? && val.typ.CollectionType? && n <= |val.values|
    ensures |r| == n
    decreases val, 0, n
  {
    if n == 0 then []
    else ExpectedItems(client, val, n - 1) + [Expected(client, val.typ.elem, val.values[n - 1], true)]
  }

  /** What a value of any type comes back as from an attribute of a scalar type; None if it cannot be bound. */
  function Through(client: Client, typ: Typ, val: Val): Option<Out> {
    match Bound(client, typ, val)
    case None => None
    case Some(s) => Read(client, typ, s, false)
  }

  function TextRead(text: Option<string>): Option<Out> {
    match text
    case None => None
    case Some(s) => Some(if s == "" then ONull else OText(s))
  }

  /** A value of another type comes back as the text, the integer, the float or the date that the Qore core makes of it;
      a number as the one that the client makes of its text; and a LOB takes text or bytes only. */
  lemma ValuesConverted(client: Client, val: Val)
    requires val != Null
    ensures Through(client, IntegerType, val) == Some(OInt(if val.Int? then val.n else client.asInt(val)))
    ensures Through(client, FloatType, val) == Some(OFloat(if val.Float? then val.x else client.asFloat(val)))
    ensures Through(client, DateType, val) == Some(ODate(if val.Date? then val.d else client.asDate(val)))
    ensures Through(client, TextType, val) == TextRead(if val.Text? then Some(val.s) else client.asText(val))
    ensures !val.Binary? ==>
      Through(client, ClobType, val) == TextRead(if val.Text? then Some(val.s) else client.asText(val))
    ensures val.Binary? ==>
      && Through(client, BlobType, val) == Some(if val.b == [] then ONull else OBinary(val.b))
      && (val.b != [] ==> Through(client, ClobType, val) == None)
    ensures val.Text? && val.s != "" ==> Through(client, BlobType, val) == None
  {
  }

  lemma NumbersConverted(client: Client, isFloat: bool, val: Val)
    requires val != Null
    ensures var r := Through(client, NumberType(isFloat), val);
      match val
      case Int(n) => r == Some(NumberOut(client, IntText(n)))
      case Float(x) => r == Some(NumberOut(client, client.floatText(x)))
      case Number(text) => r.Some? == client.number(text).Some?
        && (r.Some? ==> r.value == NumberOut(client, client.number(text).value))
      case Text(text) => r.Some? == client.number(text).Some?
        && (r.Some? ==> r.value == NumberOut(client, client.number(text).value))
      case _ => r == None
  {
    hide NumberOut, IntText;
  }

  /* ---- Attributes and elements one by one ---- */

  /** An attribute holds what the value of its field is bound to, and NULL if it has no field. */
  ghost predicate AttributeStored(client: Client, fields: seq<Field>, attr: Attr, s: Stored) {
    && (forall k: nat :: IsFieldFor(fields, attr.name, k) ==> Bound(client, attr.typ, fields[k].value) == Some(s))
    && (NoFieldFor(fields, attr.name) ==> s == SNull)
  }

  lemma {:induction false} AttributesStored(client: Client, val: Val, n: nat)
    requires val.Object? && val.typ.ObjectType? && n <= |val.typ.attrs| && DistinctKeys(val.fields)
    ensures match BoundAttrs(client, val, n)
      case Some(stored) => forall j :: 0 <= j < n ==> AttributeStored(client, val.fields, val.typ.attrs[j], stored[j])
      case None => exists j, k: nat ::
        && 0 <= j < n && IsFieldFor(val.fields, val.typ.attrs[j].name, k)
        && Bound(client, val.typ.attrs[j].typ, val.fields[k].value) == None
    decreases n
  {
    hide Bound, FieldFor;
    if n > 0 {
      AttributesStored(client, val, n - 1);
      FieldFound(val.fields, val.typ.attrs[n - 1].name);
      var i := FieldFor(val.fields, val.typ.attrs[n - 1].name);
      if BoundAttrs(client, val, n).Some? {
        var before, all := BoundAttrs(client, val, n - 1).value, BoundAttrs(client, val, n).value;
        assert forall j :: 0 <= j < n - 1 ==> all[j] == before[j];
      } else if BoundAttrs(client, val, n - 1).Some? {
        assert IsFieldFor(val.fields, val.typ.attrs[n - 1].name, i.value);
      }
    }
  }

  /** An attribute of an object comes back as the value of its field, and as NULL if it has none. */
  ghost predicate AttributeRead(client: Client, fields: seq<Field>, attr: Attr, pair: (string, Out)) {
    && pair.0 == attr.name
    && (forall k: nat :: IsFieldFor(fields, attr.name, k) ==>
       pair.1 == Expected(client, attr.typ, fields[k].value, false))
    && (NoFieldFor(fields, attr.name) ==> pair.1 == ONull)
  }

  lemma {:induction false} AttributesExpected(client: Client, val: Val, n: nat)
    requires val.Object? && val.typ.ObjectType? && n <= |val.typ.attrs| && DistinctKeys(val.fields)
    ensures forall j :: 0 <= j < n ==>
      AttributeRead(client, val.fields, val.typ.attrs[j], ExpectedAttrs(client, val, n)[j])
    decreases n
  {
    hide Expected, FieldFor;
    if n > 0 {
      AttributesExpected(client, val, n - 1);
      FieldFound(val.fields, val.typ.attrs[n - 1].name);
      var before, all := ExpectedAttrs(client, val, n - 1), ExpectedAttrs(client, val, n);
      assert forall j :: 0 <= j < n - 1 ==> all[j] == before[j];
    }
  }

  /** An object in order comes back as a hash with every attribute, each with the value of its field. */
  lemma ObjectComesBack(client: Client, typ: Typ, val: Val) returns (pairs: seq<(string, Out)>)
    requires ReadsIntegers(client) && WellTyped(client, typ, val, false) && InOrder(val)
    requires typ.ObjectType? && val.Object? && DistinctKeys(val.fields)
    ensures Bound(client, typ, val).Some?
      && Read(client, typ, Bound(client, typ, val).value, false) == Some(OHash(pairs))
    ensures |pairs| == |typ.attrs|
    ensures forall j :: 0 <= j < |pairs| ==> AttributeRead(client, val.fields, typ.attrs[j], pairs[j])
  {
    RoundTrip(client, typ, val, false);
    pairs := ExpectedAttrs(client, val, |typ.attrs|);
    AttributesExpected(client, val, |typ.attrs|);
    hide ReadsIntegers, Read, Bound, InOrder, AttributeRead, ExpectedAttrs;
  }

  lemma {:induction false} ItemsExpected(client: Client, val: Val, n: nat, i: nat)
    requires val.Collection? && val.typ.CollectionType? && i < n <= |val.values|
    ensures ExpectedItems(client, val, n)[i] == Expected(client, val.typ.elem, val.values[i], true)
    decreases n
  {
    hide Expected;
    if i < n - 1 {
      ItemsExpected(client, val, n - 1, i);
    }
  }

  /** A collection in order comes back as a list of its values in their order. */
  lemma CollectionComesBack(client: Client, typ: Typ, val: Val) returns (outs: seq<Out>)
    requires ReadsIntegers(client) && WellTyped(client, typ, val, false) && InOrder(val)
    requires typ.CollectionType? && val.Collection?
    ensures Bound(client, typ, val).Some?
      && Read(client, typ, Bound(client, typ, val).value, false) == Some(OList(outs))
    ensures |outs| == |val.values|
    ensures forall i :: 0 <= i < |outs| ==> outs[i] == Expected(client, typ.elem, val.values[i], true)
  {
    RoundTrip(client, typ, val, false);
    outs := ExpectedItems(client, val, |val.values|);
    hide ReadsIntegers, Read, Bound, InOrder, ExpectedItems;
    forall i | 0 <= i < |outs| ensures outs[i] == Expected(client, typ.elem, val.values[i], true) {
      ItemsExpected(client, val, |val.values|, i);
    }
  }

  /** With the default number option an integer reads as itself. */
  lemma IntegerReadsAsItself(client: Client, n: int)
    requires client.option == OptimalNumbers && IsInt64(n)
    ensures NumberOut(client, IntText(n)) == OInt(n)
  {
    IntegerRead(IntText(n));
    ColumnsAgree(IntText(n));
    NoMarks(IntText(n));
  }

  lemma {:induction false} AttrsRead(client: Client, typ: Typ, s: Stored, outs: seq<(string, Out)>, n: nat)
    requires typ.ObjectType? && s.SObject? && n <= |outs| == |typ.attrs| == |s.attrs|
    requires forall i :: 0 <= i < n ==>
      Read(client, typ.attrs[i].typ, s.attrs[i], false) == Some(outs[i].1) && outs[i].0 == typ.attrs[i].name
    ensures ReadAttrs(client, typ, s, n) == Some(outs[..n])
    decreases n
  {
    hide Read;
    if n > 0 {
      AttrsRead(client, typ, s, outs, n - 1);
      assert outs[..n] == outs[..n - 1] + [(outs[n - 1].0, outs[n - 1].1)];
    }
  }

  lemma {:induction false} ElemsRead(client: Client, typ: Typ, s: Stored, outs: seq<Out>, n: nat)
    requires typ.CollectionType? && s.SCollection? && n <= |outs| == |s.elems|
    requires forall i :: 0 <= i < n ==> Read(client, typ.elem, s.elems[i], true) == Some(outs[i])
    ensures ReadElems(client, typ, s, n) == Some(outs[..n])
    decreases n
  {
    hide Read;
    if n > 0 {
      ElemsRead(client, typ, s, outs, n - 1);
      assert outs[..n] == outs[..n - 1] + [outs[n - 1]];
    }
  }

  /** Binding a value of a type and reading it back returns it if and only if, at every level of nesting, no NULL
      follows an object in a collection of objects. */
  lemma {:induction false} RoundTrip(client: Client, typ: Typ, val: Val, inCollection: bool)
    requires ReadsIntegers(client) && WellTyped(client, typ, val, inCollection)
    ensures Bound(client, typ, val).Some?
    ensures Read(client, typ, Bound(client, typ, val).value, inCollection) ==
      Some(Expected(client, typ, val, inCollection))
      <==> InOrder(val)
    decreases val, 2, 0
  {
    if val.Object? && typ.ObjectType? {
      ObjectRoundTrip(client, typ, val, inCollection);
    } else if val.Collection? && typ.CollectionType? {
      CollectionRoundTrip(client, typ, val, inCollection);
    } else {
      hide NumberOut, IntText, FieldFor;
    }
  }

  lemma {:induction false} ObjectRoundTrip(client: Client, typ: Typ, val: Val, inCollection: bool)
    requires ReadsIntegers(client) && WellTyped(client, typ, val, inCollection) && val.Object? && typ.ObjectType?
    ensures Bound(client, typ, val).Some?
    ensures Read(client, typ, Bound(client, typ, val).value, inCollection) ==
      Some(Expected(client, typ, val, inCollection))
      <==> InOrder(val)
    decreases val, 1, 0
  {
    hide FieldFor, ReadsIntegers;
    var n := |typ.attrs|;
    RoundTripAttrs(client, val, n);
    var s, outs := Bound(client, typ, val).value, ExpectedAttrs(client, val, n);
    assert s == SObject(typ, BoundAttrs(client, val, n).value);
    hide BoundAttrs, ExpectedAttrs, AttrsInOrder, AttrsTyped, ReadAttrs;
    if AttrsInOrder(val, n) {
      AttrsRead(client, typ, s, outs, n);
      assert outs[..n] == outs;
    } else if ReadAttrs(client, typ, s, n) == Some(outs) {
      var i :| 0 <= i < n && Read(client, typ.attrs[i].typ, s.attrs[i], false) != Some(outs[i].1);
      ReadAttrsAt(client, typ, s, n, i);
      assert false;
    }
  }

  lemma {:induction false} ReadAttrsAt(client: Client, typ: Typ, s: Stored, n: nat, i: nat)
    requires typ.ObjectType? && s.SObject? && i < n <= |typ.attrs| == |s.attrs|
    requires ReadAttrs(client, typ, s, n).Some?
    ensures Read(client, typ.attrs[i].typ, s.attrs[i], false) == Some(ReadAttrs(client, typ, s, n).value[i].1)
    decreases n
  {
    hide Read;
    if i < n - 1 {
      ReadAttrsAt(client, typ, s, n - 1, i);
    }
  }

  lemma {:induction false} CollectionRoundTrip(client: Client, typ: Typ, val: Val, inCollection: bool)
    requires ReadsIntegers(client) && WellTyped(client, typ, val, inCollection) && val.Collection?
      && typ.CollectionType?
    ensures Bound(client, typ, val).Some?
    ensures Read(client, typ, Bound(client, typ, val).value, inCollection) ==
      Some(Expected(client, typ, val, inCollection))
      <==> InOrder(val)
    decreases val, 1, 0
  {
    var n := |val.values|;
    RoundTripItems(client, val, n);
    var items, outs := BoundItems(client, val, n).value, ExpectedItems(client, val, n);
    if typ.elem.ObjectType? && !NoNullBehindValue(val.values) {
      var i, j :| 0 <= i < j < n && val.values[i] != Null && val.values[j] == Null;
      ObjectInPlaceOfNull(client, typ, val, i, j, inCollection);
    } else {
      AppendedInOrder(typ.elem, items);
      var s := Bound(client, typ, val).value;
      assert s == SCollection(typ, items);
      hide BoundItems, ExpectedItems, ItemsInOrder, ItemsTyped, ReadElems, Appended, NoNullBehindValue;
      if ItemsInOrder(val, n) {
        ElemsRead(client, typ, s, outs, n);
        assert outs[..n] == outs;
      } else if ReadElems(client, typ, s, n) == Some(outs) {
        var i :| 0 <= i < n && Read(client, typ.elem, s.elems[i], true) != Some(outs[i]);
        ReadElemsAt(client, typ, s, n, i);
        assert false;
      }
    }
  }

  lemma {:induction false} RoundTripAttrs(client: Client, val: Val, n: nat)
    requires val.Object? && val.typ.ObjectType? && n <= |val.typ.attrs|
    requires ReadsIntegers(client) && AttrsTyped(client, val, n)
    ensures BoundAttrs(client, val, n).Some?
    ensures AttrsInOrder(val, n) <==> forall i :: 0 <= i < n ==>
      Read(client, val.typ.attrs[i].typ, BoundAttrs(client, val, n).value[i], false) ==
        Some(ExpectedAttrs(client, val, n)[i].1)
    decreases val, 0, n
  {
    hide Read, Bound, Expected, WellTyped, FieldFor, InOrder, ReadsIntegers;
    if n > 0 {
      RoundTripAttrs(client, val, n - 1);
      var i := FieldFor(val.fields, val.typ.attrs[n - 1].name);
      if i.Some? {
        RoundTrip(client, val.typ.attrs[n - 1].typ, val.fields[i.value].value, false);
      } else {
        NullReads(client, val.typ.attrs[n - 1].typ);
      }
      var before, all := BoundAttrs(client, val, n - 1).value, BoundAttrs(client, val, n).value;
      var outs, outs' := ExpectedAttrs(client, val, n - 1), ExpectedAttrs(client, val, n);
      assert forall k :: 0 <= k < n - 1 ==> all[k] == before[k] && outs'[k] == outs[k];
    }
  }

  lemma NullReads(client: Client, typ: Typ)
    ensures Read(client, typ, SNull, false) == Some(ONull)
  {
  }

  lemma {:induction false} RoundTripItems(client: Client, val: Val, n: nat)
    requires val.Collection? && val.typ.CollectionType? && n <= |val.values|
    requires ReadsIntegers(client) && ItemsTyped(client, val, n)
    ensures BoundItems(client, val, n).Some?
    ensures ItemsInOrder(val, n) <==> forall i :: 0 <= i < n ==>
      Read(client, val.typ.elem, BoundItems(client, val, n).value[i], true) == Some(ExpectedItems(client, val, n)[i])
    ensures val.typ.elem.ObjectType? ==>
      forall i :: 0 <= i < n ==> (BoundItems(client, val, n).value[i] == SNull <==> val.values[i] == Null)
    decreases val, 0, n
  {
    hide Read, Bound, Expected, WellTyped, InOrder, ReadsIntegers;
    if n > 0 {
      RoundTripItems(client, val, n - 1);
      RoundTrip(client, val.typ.elem, val.values[n - 1], true);
      ObjectsAreNotNull(client, val.typ.elem, val.values[n - 1]);
      var before, all := BoundItems(client, val, n - 1).value, BoundItems(client, val, n).value;
      var outs, outs' := ExpectedItems(client, val, n - 1), ExpectedItems(client, val, n);
      assert forall k :: 0 <= k < n - 1 ==> all[k] == before[k] && outs'[k] == outs[k];
      assert all[n - 1] == Bound(client, val.typ.elem, val.values[n - 1]).value;
      assert outs'[n - 1] == Expected(client, val.typ.elem, val.values[n - 1], true);
      assert ItemsInOrder(val, n) <==> ItemsInOrder(val, n - 1) && InOrder(val.values[n - 1]);
    }
  }

  lemma ObjectsAreNotNull(client: Client, typ: Typ, val: Val)
    ensures typ.ObjectType? && Bound(client, typ, val).Some? ==>
      (Bound(client, typ, val).value == SNull <==> val == Null)
  {
  }

  lemma {:induction false} ReadElemsAt(client: Client, typ: Typ, s: Stored, n: nat, i: nat)
    requires typ.CollectionType? && s.SCollection? && i < n <= |s.elems|
    requires ReadElems(client, typ, s, n).Some?
    ensures Read(client, typ.elem, s.elems[i], true) == Some(ReadElems(client, typ, s, n).value[i])
    decreases n
  {
    hide Read;
    if i < n - 1 {
      ReadElemsAt(client, typ, s, n - 1, i);
    }
  }

  /** A collection of objects that are each in order comes back as it was exactly if no NULL follows an object in it;
      otherwise an object is read in the place of such a NULL. */
  lemma ObjectsComeBackInOrder(client: Client, typ: Typ, val: Val)
    requires ReadsIntegers(client) && typ.CollectionType? && typ.elem.ObjectType?
    requires WellTyped(client, typ, val, false) && val.Collection? && ItemsInOrder(val, |val.values|)
    ensures Bound(client, typ, val).Some?
    ensures Read(client, typ, Bound(client, typ, val).value, false) == Some(Expected(client, typ, val, false)) <==>
      NoNullBehindValue(val.values)
  {
    hide ReadsIntegers, Read, Expected, Bound;
    RoundTrip(client, typ, val, false);
  }

  lemma ObjectInPlaceOfNull(client: Client, typ: Typ, val: Val, i: nat, j: nat, inCollection: bool)
    requires typ.CollectionType? && typ.elem.ObjectType? && val.Collection? && val.typ == typ
    requires i < j < |val.values| && val.values[i] != Null && val.values[j] == Null
    requires BoundItems(client, val, |val.values|).Some? && BoundItems(client, val, |val.values|).value[i] != SNull
    ensures Bound(client, typ, val).Some?
    ensures Read(client, typ, Bound(client, typ, val).value, inCollection) !=
      Some(Expected(client, typ, val, inCollection))
  {
    var n, items := |val.values|, BoundItems(client, val, |val.values|).value;
    var s := SCollection(typ, Appended(typ.elem, items));
    assert Bound(client, typ, val) == Some(s);
    hide Bound, BoundItems, Read, Expected, ExpectedItems;
    LastSetFinds(items[..j + 1], i);
    assert |s.elems| == |items| && s.elems[j] != SNull;
    hide *;
    ObjectReadForNull(client, typ, s, j, inCollection);
    ExpectedNull(client, val, n, j);
    ExpectedList(client, typ, val, inCollection);
  }

  /** Reading an object in a place never gives NULL there. */
  lemma ObjectReadForNull(client: Client, typ: Typ, s: Stored, j: nat, inCollection: bool)
    requires typ.CollectionType? && typ.elem.ObjectType? && s.SCollection? && j < |s.elems| && s.elems[j] != SNull
    ensures match Read(client, typ, s, inCollection)
      case Some(OList(values)) => j < |values| && values[j] != ONull
      case _ => true
  {
    var r := ReadElems(client, typ, s, |s.elems|);
    if r.Some? {
      ReadElemsAt(client, typ, s, |s.elems|, j);
    }
  }

  lemma ExpectedList(client: Client, typ: Typ, val: Val, inCollection: bool)
    requires typ.CollectionType? && val.Collection? && val.typ == typ
    ensures Expected(client, typ, val, inCollection) == OList(ExpectedItems(client, val, |val.values|))
  {
  }

  lemma {:induction false} ExpectedNull(client: Client, val: Val, n: nat, j: nat)
    requires val.Collection? && val.typ.CollectionType? && j < n <= |val.values| && val.values[j] == Null
    ensures ExpectedItems(client, val, n)[j] == ONull
    decreases n
  {
    if j < n - 1 {
      ExpectedNull(client, val, n - 1, j);
    }
  }

  /* ---- The accessor and the collection ---- */

  /** The element accessor: its content, whether it has created its own object, its own indicator, and whether the
      indicator it uses is that of its object. */
  class Element {
    const typ: Typ
    var handle: Stored
    var obj: bool
    var isNull: bool
    var viaObject: bool

    constructor (typ: Typ)
      ensures this.typ == typ && !obj && isNull && !viaObject && handle == SNull
    {
      this.typ, handle, obj, isNull, viaObject := typ, SNull, false, true, false;
    }

    /** What an append through this accessor adds; an object that was assigned is not null itself. */
    function Appends(): Stored
      reads this
    {
      if !viaObject && isNull then SNull else handle
    }

    /** The accessor after values whose stored forms were these. */
    ghost predicate After(items: seq<Stored>)
      reads this
    {
      if typ.ObjectType? then
        isNull && (obj <==> viaObject) && Appends() == LastSet(items)
      else !viaObject && (items != [] ==> Appends() == items[|items| - 1])
    }

    method SetNullIndicator(value: bool)
      modifies this`isNull, this`viaObject
      ensures if typ.ObjectType? then isNull == old(isNull) && viaObject == (old(viaObject) || obj)
              else isNull == value && viaObject == old(viaObject)
    {
      if typ.ObjectType? {
        if obj {
          viaObject := true;
        }
      } else {
        isNull := value;
      }
    }

    method SetNull(ghost items: seq<Stored>)
      requires After(items)
      modifies this
      ensures After(items + [SNull])
    {
      assert (items + [SNull])[..|items|] == items;
      SetNullIndicator(true);
    }

    method SetValue(value: Stored, ghost items: seq<Stored>)
      requires After(items) && value != SNull
      modifies this
      ensures After(items + [value])
    {
      if typ.ObjectType? || typ.CollectionType? {
        obj := true;
      }
      handle := value;
      SetNullIndicator(false);
    }
  }

  class CollectionHandle {
    var elems: seq<Stored>

    constructor ()
      ensures elems == []
    {
      elems := [];
    }

    /** Appends a copy of what the accessor holds. */
    method Append(e: Element)
      modifies this
      ensures elems == old(elems) + [e.Appends()]
    {
      elems := elems + [e.Appends()];
    }
  }

  /* ---- Binding ---- */

  /** Binds one value: an attribute or an element. */
  method BindOne(client: Client, typ: Typ, val: Val) returns (r: Option<Stored>)
    ensures r == Bound(client, typ, val)
    decreases val, 2
  {
    if val.Object? && typ.ObjectType? {
      if !val.typ.ObjectType? {
        return None;
      }
      r := BindObject(client, val);
      if val.typ != typ {
        r := None; // an object of another type cannot be assigned
      }
    } else if val.Collection? && typ.CollectionType? {
      if !val.typ.CollectionType? {
        return None;
      }
      r := BindCollection(client, val);
      if val.typ != typ {
        r := None;
      }
    } else if val == Null {
      r := Some(SNull);
    } else {
      r := BoundScalar(client, typ, val);
    }
  }

  /** The stored object has every attribute with the value of its field; binding fails if and only if there is no
      attribute or the value of a field cannot be bound. */
  ghost predicate ObjectStored(client: Client, val: Val, r: Option<Stored>)
    requires val.Object? && val.typ.ObjectType?
  {
    var attrs := val.typ.attrs;
    match r
    case Some(s) =>
      && s.SObject? && s.typ == val.typ && |s.attrs| == |attrs| && attrs != []
      && forall j :: 0 <= j < |attrs| ==> AttributeStored(client, val.fields, attrs[j], s.attrs[j])
    case None =>
      attrs == [] || exists j, k: nat ::
        0 <= j < |attrs| && IsFieldFor(val.fields, attrs[j].name, k)
        && Bound(client, attrs[j].typ, val.fields[k].value) == None
  }

  lemma BoundIsStored(client: Client, val: Val)
    requires val.Object? && val.typ.ObjectType? && DistinctKeys(val.fields)
    ensures ObjectStored(client, val, Bound(client, val.typ, val))
  {
    AttributesStored(client, val, |val.typ.attrs|);
    hide BoundAttrs, AttributeStored, IsFieldFor;
  }

  /** Binds the value of the field for an attribute; without a field the attribute is NULL. */
  method BindAttribute(client: Client, val: Val, j: nat) returns (s: Option<Stored>)
    requires val.Object? && val.typ.ObjectType? && j < |val.typ.attrs|
    ensures BoundAttrs(client, val, j).Some? ==>
      BoundAttrs(client, val, j + 1) == if s.Some? then Some(BoundAttrs(client, val, j).value + [s.value]) else None
    ensures DistinctKeys(val.fields) && s.Some? ==> AttributeStored(client, val.fields, val.typ.attrs[j], s.value)
    decreases val, 0
  {
    if DistinctKeys(val.fields) {
      FieldFound(val.fields, val.typ.attrs[j].name);
    }
    var k := FindKey(val.fields, val.typ.attrs[j].name);
    if k == None {
      k := FindKey(val.fields, Lower(val.typ.attrs[j].name));
    }
    s := Some(SNull);
    if k.Some? && val.fields[k.value].value != Null {
      s := BindOne(client, val.typ.attrs[j].typ, val.fields[k.value].value);
    }
  }

  /** Binds an object attribute by attribute. */
  method BindObject(client: Client, val: Val) returns (r: Option<Stored>)
    requires val.Object? && val.typ.ObjectType?
    ensures r == Bound(client, val.typ, val)
    ensures DistinctKeys(val.fields) ==> ObjectStored(client, val, r)
    decreases val, 1
  {
    if DistinctKeys(val.fields) {
      BoundIsStored(client, val);
    }
    hide ObjectStored, DistinctKeys, AttributeStored;
    var attrs := val.typ.attrs;
    if attrs == [] {
      return None;
    }
    var stored: seq<Stored>, ok := [], true;
    var i := 0;
    while ok && i < |attrs|
      invariant i <= |attrs|
      invariant if ok then BoundAttrs(client, val, i) == Some(stored) else BoundAttrs(client, val, |attrs|) == None
      decreases ok, |attrs| - i
    {
      var s := BindAttribute(client, val, i);
      if s.Some? {
        stored := stored + [s.value];
      } else {
        ok := false;
        AttrsFail(client, val, i + 1, |attrs|);
      }
      i := i + 1;
    }
    r := if ok then Some(SObject(val.typ, stored)) else None;
  }

  lemma {:induction false} AttrsFail(client: Client, val: Val, n: nat, m: nat)
    requires val.Object? && val.typ.ObjectType? && n <= m <= |val.typ.attrs| && BoundAttrs(client, val, n) == None
    ensures BoundAttrs(client, val, m) == None
    decreases m
  {
    hide Bound;
    if n < m {
      AttrsFail(client, val, n, m - 1);
    }
  }

  /** Binds a collection by appending its values through one accessor. */
  method BindCollection(client: Client, val: Val) returns (r: Option<Stored>)
    requires val.Collection? && val.typ.CollectionType?
    ensures r == Bound(client, val.typ, val)
    decreases val, 1
  {
    var elem := val.typ.elem;
    var coll := new CollectionHandle();
    var e := new Element(elem);
    ghost var items: seq<Stored> := [];
    var ok, i := true, 0;
    while ok && i < |val.values|
      invariant i <= |val.values| && e.typ == elem && fresh(e) && fresh(coll)
      invariant ok ==>
        && BoundItems(client, val, i) == Some(items) && e.After(items)
        && coll.elems == Appended(elem, items)
      invariant !ok ==> BoundItems(client, val, |val.values|) == None
      decreases ok, |val.values| - i
    {
      var s := Some(SNull);
      if val.values[i] != Null {
        s := BindOne(client, elem, val.values[i]);
      }
      if s.Some? {
        if s.value == SNull {
          e.SetNull(items);
        } else {
          e.SetValue(s.value, items);
        }
        AppendedOneMore(elem, items, s.value);
        items := items + [s.value];
        coll.Append(e);
      } else {
        ok := false;
        ItemsFail(client, val, i + 1, |val.values|);
      }
      i := i + 1;
    }
    r := if ok then Some(SCollection(val.typ, coll.elems)) else None;
  }

  lemma AppendedOneMore(elem: Typ, items: seq<Stored>, s: Stored)
    ensures Appended(elem, items + [s])
         == Appended(elem, items) + [if elem.ObjectType? then LastSet(items + [s]) else s]
  {
    var more := items + [s];
    assert more[..|more|] == more;
    forall i | 0 <= i < |items| ensures Appended(elem, more)[i] == Appended(elem, items)[i] {
      assert more[..i + 1] == items[..i + 1];
    }
  }

  lemma {:induction false} ItemsFail(client: Client, val: Val, n: nat, m: nat)
    requires val.Collection? && val.typ.CollectionType? && n <= m <= |val.values| && BoundItems(client, val, n) == None
    ensures BoundItems(client, val, m) == None
    decreases m
  {
    hide Bound;
    if n < m {
      ItemsFail(client, val, n, m - 1);
    }
  }

  /* ---- Reading ---- */

  /** Reads one value: an attribute or an element. */
  method ReadOne(client: Client, typ: Typ, s: Stored, inCollection: bool) returns (r: Option<Out>)
    ensures r == Read(client, typ, s, inCollection)
    decreases s, 2
  {
    if s == SNull {
      r := Some(ONull);
    } else if typ.CollectionType? {
      r := None;
      if s.SCollection? {
        var values := ReadCollection(client, typ, s);
        r := if values.Some? then Some(OList(values.value)) else None;
      }
    } else if typ.ObjectType? {
      r := None;
      if s.SObject? && |s.attrs| == |typ.attrs| && typ.attrs != [] {
        var pairs := ReadObject(client, typ, s);
        r := if pairs.Some? then Some(OHash(pairs.value)) else None;
      }
    } else {
      r := ReadScalar(client, typ, s, inCollection);
    }
  }

  method ReadObject(client: Client, typ: Typ, s: Stored) returns (r: Option<seq<(string, Out)>>)
    requires typ.ObjectType? && s.SObject? && |s.attrs| == |typ.attrs|
    ensures r == ReadAttrs(client, typ, s, |typ.attrs|)
    decreases s, 1
  {
    hide Read;
    var pairs: seq<(string, Out)>, ok, i := [], true, 0;
    while ok && i < |typ.attrs|
      invariant i <= |typ.attrs|
      invariant if ok then ReadAttrs(client, typ, s, i) == Some(pairs)
                else ReadAttrs(client, typ, s, |typ.attrs|) == None
      decreases ok, |typ.attrs| - i
    {
      var out := ReadOne(client, typ.attrs[i].typ, s.attrs[i], false);
      if out.Some? {
        pairs := pairs + [(typ.attrs[i].name, out.value)];
      } else {
        ok := false;
        ReadAttrsFail(client, typ, s, i + 1, |typ.attrs|);
      }
      i := i + 1;
    }
    r := if ok then Some(pairs) else None;
  }

  lemma {:induction false} ReadAttrsFail(client: Client, typ: Typ, s: Stored, n: nat, m: nat)
    requires typ.ObjectType? && s.SObject? && n <= m <= |typ.attrs| == |s.attrs| && ReadAttrs(client, typ, s, n) == None
    ensures ReadAttrs(client, typ, s, m) == None
    decreases m
  {
    hide Read;
    if n < m {
      ReadAttrsFail(client, typ, s, n, m - 1);
    }
  }

  method ReadCollection(client: Client, typ: Typ, s: Stored) returns (r: Option<seq<Out>>)
    requires typ.CollectionType? && s.SCollection?
    ensures r == ReadElems(client, typ, s, |s.elems|)
    decreases s, 1
  {
    hide Read;
    var values: seq<Out>, ok, i := [], true, 0;
    while ok && i < |s.elems|
      invariant i <= |s.elems|
      invariant if ok then ReadElems(client, typ, s, i) == Some(values)
                else ReadElems(client, typ, s, |s.elems|) == None
      decreases ok, |s.elems| - i
    {
      var out := ReadOne(client, typ.elem, s.elems[i], true);
      if out.Some? {
        values := values + [out.value];
      } else {
        ok := false;
        ReadElemsFail(client, typ, s, i + 1, |s.elems|);
      }
      i := i + 1;
    }
    r := if ok then Some(values) else None;
  }

  lemma {:induction false} ReadElemsFail(client: Client, typ: Typ, s: Stored, n: nat, m: nat)
    requires typ.CollectionType? && s.SCollection? && n <= m <= |s.elems| && ReadElems(client, typ, s, n) == None
    ensures ReadElems(client, typ, s, m) == None
    decreases m
  {
    hide Read;
    if n < m {
      ReadElemsFail(client, typ, s, n, m - 1);
    }
  }
}
