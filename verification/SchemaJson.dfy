/** The JSON form of types in table metadata, and its recursive parser. */
module SchemaJson {
  import opened Basics
  import opened TypeStrings

  datatype Json =
    | Null
    | Bool(b: bool)
    | Num(n: int)
    | Str(s: string)
    | Arr(items: seq<Json>)
    | Obj(members: seq<Member>)

  datatype Member = Member(key: string, value: Json)

  /** `yyjson_obj_get`: the first member of that name; nothing when this is not an object. */
  function Get(j: Json, key: string): (r: Option<Json>)
    ensures r.Some? ==> r.value < j
  {
    if !j.Obj? then None else GetIn(j.members, key)
  }

  function GetIn(members: seq<Member>, key: string): (r: Option<Json>)
    ensures r.Some? ==> exists i :: 0 <= i < |members| && members[i].value == r.value
  {
    if members == [] then None
    else if members[0].key == key then Some(members[0].value)
    else GetIn(members[1..], key)
  }

  /** Member `k` is the first with that name. */
  predicate FirstAt(members: seq<Member>, key: string, k: int) {
    0 <= k < |members| && members[k].key == key && forall i | 0 <= i < k :: members[i].key != key
  }

  /** The lookup gives the value of the first member of that name, and nothing when there is none. */
  lemma {:induction false} GetInIs(members: seq<Member>, key: string)
    ensures GetIn(members, key).Some? <==> exists k :: FirstAt(members, key, k)
    ensures forall k | FirstAt(members, key, k) :: GetIn(members, key) == Some(members[k].value)
  {
    if members != [] {
      if members[0].key == key {
        assert FirstAt(members, key, 0);
        assert forall k :: FirstAt(members, key, k) ==> k == 0;
      } else {
        GetInIs(members[1..], key);
        forall k ensures FirstAt(members, key, k) <==> k > 0 && FirstAt(members[1..], key, k - 1) {
          FirstAtTail(members, key, k);
        }
        if k :| FirstAt(members[1..], key, k) {
          assert FirstAt(members, key, k + 1);
        }
      }
    }
  }

  lemma FirstAtTail(members: seq<Member>, key: string, k: int)
    requires members != [] && members[0].key != key
    ensures FirstAt(members, key, k) <==> k > 0 && FirstAt(members[1..], key, k - 1)
  {
    if k > 0 && FirstAt(members[1..], key, k - 1) {
      assert members[k] == members[1..][k - 1];
      forall i | 0 <= i < k ensures members[i].key != key {
        assert i > 0 ==> members[i] == members[1..][i - 1];
      }
    }
    if FirstAt(members, key, k) && k > 0 {
      assert forall i | 0 <= i < |members| - 1 :: members[1..][i] == members[i + 1];
    }
  }

  lemma GetIs(j: Json, key: string)
    ensures !j.Obj? ==> Get(j, key) == None
    ensures j.Obj? ==> (Get(j, key).Some? <==> exists k :: FirstAt(j.members, key, k))
    ensures j.Obj? ==> forall k | FirstAt(j.members, key, k) :: Get(j, key) == Some(j.members[k].value)
  {
    if j.Obj? {
      GetInIs(j.members, key);
    }
  }

  function GetStr(j: Json, key: string): Result<string, Error> {
    match Get(j, key)
    case Some(Str(s)) => Success(s)
    case _ => Failure(MissingField)
  }

  // ----- primitive names ---------------------------------------------------------------------------

  predicate IsDigit(c: char) {
    '0' <= c <= '9'
  }

  function DigitPrefix(s: string): (n: nat)
    ensures n <= |s| && (forall i | 0 <= i < n :: IsDigit(s[i])) && (n < |s| ==> !IsDigit(s[n]))
  {
    if s != "" && IsDigit(s[0]) then 1 + DigitPrefix(s[1..]) else 0
  }

  /** `std::stoi`: spaces, a sign, and the longest run of digits; what follows is ignored. */
  function Stoi(s: string): Result<int, Error> {
    var t := TrimLeft(s);
    var negative := t != "" && t[0] == '-';
    var u := if t != "" && (t[0] == '-' || t[0] == '+') then t[1..] else t;
    match NumberOf(u[..DigitPrefix(u)])
    case None => Failure(BadNumber)
    case Some(n) =>
      var value: int := if negative then -(n as int) else n as int;
      if -0x8000_0000 <= value <= 0x7fff_ffff then Success(value) else Failure(BadNumber)
  }

  /** The decimal branch: the text after the bracket, split at its only comma; the last part keeps the
      closing bracket, which stoi ignores. Widths are cut to a byte. */
  function ParseJsonDecimal(name: string): Result<LogicalType, Error> {
    if |name| < 9 || name[7] != '(' || name[|name| - 1] != ')' then Failure(BadNumber)
    else
      match FindChar(name[8..], ',')
      case None => Failure(BadNumber)
      case Some(sep) =>
        if ',' in name[8..][sep + 1..] then Failure(BadNumber)
        else
          match Stoi(name[8..][..sep])
          case Failure(error) => Failure(error)
          case Success(width) =>
            match Stoi(name[8..][sep + 1..])
            case Failure(error) => Failure(error)
            case Success(scale) => Success(Decimal(width % 256, scale % 256))
  }

  function ParsePrimitive(name: string): Result<LogicalType, Error> {
    if name == "boolean" then Success(Boolean)
    else if name == "int" then Success(Integer)
    else if name == "long" then Success(BigInt)
    else if name == "float" then Success(Float)
    else if name == "double" then Success(Double)
    else if name == "date" then Success(Date)
    else if name == "time" then Success(Time)
    else if name == "timestamp" then Success(Timestamp)
    else if name == "timestamptz" then Success(TimestampTz)
    else if name == "string" then Success(Varchar)
    else if name == "uuid" then Success(Uuid)
    else if StartsWith(name, "fixed") then Success(Blob)
    else if name == "binary" then Success(Blob)
    else if StartsWith(name, "decimal") then ParseJsonDecimal(name)
    else Failure(UnknownType)
  }

  // ----- types ---------------------------------------------------------------------------------------

  function ParseTypeValue(j: Json): Result<LogicalType, Error>
    decreases j, 4
  {
    match j
    case Obj(_) => ParseComplexType(j)
    case Str(name) => ParsePrimitive(name)
    case _ => Failure(MissingField)
  }

  function ParseComplexType(j: Json): Result<LogicalType, Error>
    decreases j, 3
  {
    match GetStr(j, "type")
    case Failure(error) => Failure(error)
    case Success(kind) =>
      if kind == "struct" then StructOf(ParseStruct(j))
      else if kind == "list" then ListOf(ParseMember(j, "element"))
      else if kind == "map" then MapOf(ParseMember(j, "key"), ParseMember(j, "value"))
      else Failure(UnknownType)
  }

  /** A member that holds a type; a missing one is neither an object nor a string. */
  function ParseMember(j: Json, key: string): Result<LogicalType, Error>
    decreases j, 2
  {
    match Get(j, key)
    case None => Failure(MissingField)
    case Some(value) => ParseTypeValue(value)
  }

  /** The loop over `fields`; it visits nothing when the member is missing or not an array. */
  function ParseStruct(j: Json): Result<seq<Field>, Error>
    decreases j, 2
  {
    match Get(j, "fields")
    case Some(Arr(items)) => ParseItems(items)
    case _ => Success([])
  }

  function ParseItem(item: Json): Result<Field, Error>
    decreases item, 3
  {
    match GetStr(item, "name")
    case Failure(error) => Failure(error)
    case Success(name) => NameField(name, ParseMember(item, "type"))
  }

  function StructOf(fields: Result<seq<Field>, Error>): Result<LogicalType, Error> {
    if fields.Failure? then Failure(fields.error) else Success(Struct(fields.value))
  }

  function ListOf(child: Result<LogicalType, Error>): Result<LogicalType, Error> {
    if child.Failure? then Failure(child.error) else Success(List(child.value))
  }

  function MapOf(key: Result<LogicalType, Error>, value: Result<LogicalType, Error>): Result<LogicalType, Error> {
    if key.Failure? then Failure(key.error)
    else if value.Failure? then Failure(value.error)
    else Success(Map(key.value, value.value))
  }

  function ParseItems(items: seq<Json>): Result<seq<Field>, Error>
    decreases items
  {
    if items == [] then Success([]) else Cons(ParseItem(items[0]), ParseItems(items[1..]))
  }

  /** The loop of ParseStruct: fields are pushed one by one, the first error stops it. */
  method ParseFieldsLoop(items: seq<Json>) returns (r: Result<seq<Field>, Error>)
    ensures r == ParseItems(items)
  {
    var children: seq<Field> := [];
    assert items[0..] == items;
    PrependNothing(ParseItems(items));
    for idx := 0 to |items|
      invariant ParseItems(items) == Prepend(children, ParseItems(items[idx..]))
    {
      var field := ParseItem(items[idx]);
      assert items[idx..][1..] == items[idx + 1..];
      if field.Failure? {
        return Failure(field.error);
      }
      PrependCons(children, field.value, ParseItems(items[idx + 1..]));
      children := children + [field.value];
    }
    ConcatNil(children);
    r := Success(children);
  }

  // ----- the encoding of the specification (Appendix C) ------------------------------------------

  datatype IcebergType =
    | BooleanType | IntType | LongType | FloatType | DoubleType | DateType | TimeType
    | TimestampType | TimestamptzType | StringType | UuidType | BinaryType
    | FixedType(length: nat)
    | DecimalType(precision: nat, scale: nat)
    | ListType(element: IcebergType)
    | MapType(key: IcebergType, value: IcebergType)
    | StructType(fields: seq<NestedField>)

  datatype NestedField = NestedField(name: string, ty: IcebergType)

  /** The single-value strings of the primitive types; decimals with or without a space. */
  predicate NamesPrimitive(name: string, t: IcebergType) {
    match t
    case BooleanType => name == "boolean"
    case IntType => name == "int"
    case LongType => name == "long"
    case FloatType => name == "float"
    case DoubleType => name == "double"
    case DateType => name == "date"
    case TimeType => name == "time"
    case TimestampType => name == "timestamp"
    case TimestamptzType => name == "timestamptz"
    case StringType => name == "string"
    case UuidType => name == "uuid"
    case BinaryType => name == "binary"
    case FixedType(length) => name == "fixed[" + Digits(length) + "]"
    case DecimalType(precision, scale) =>
      name == "decimal(" + Digits(precision) + "," + Digits(scale) + ")" ||
      name == "decimal(" + Digits(precision) + ", " + Digits(scale) + ")"
    case _ => false
  }

  /** `value` is the value of the first member of `j` with that name. */
  ghost predicate Holds(j: Json, key: string, value: Json) {
    j.Obj? && exists k :: FirstAt(j.members, key, k) && j.members[k].value == value
  }

  /** `j` is a JSON form of `t`; ids, `required` and any other members, in any order, are allowed. */
  ghost predicate Encodes(j: Json, t: IcebergType)
    decreases t, 1
  {
    match t
    case ListType(element) =>
      Holds(j, "type", Str("list")) && EncodesIn(j, "element", element)
    case MapType(key, value) =>
      Holds(j, "type", Str("map")) && EncodesIn(j, "key", key) && EncodesIn(j, "value", value)
    case StructType(fields) =>
      && Holds(j, "type", Str("struct"))
      && exists k :: FirstAt(j.members, "fields", k) && j.members[k].value.Arr? && EncodesFields(j.members[k].value.items, fields)
    case _ => j.Str? && NamesPrimitive(j.s, t)
  }

  /** The first member of that name holds a form of `t`. */
  ghost predicate EncodesIn(j: Json, key: string, t: IcebergType)
    decreases t, 2
  {
    j.Obj? && exists k :: FirstAt(j.members, key, k) && Encodes(j.members[k].value, t)
  }

  ghost predicate EncodesFields(items: seq<Json>, fields: seq<NestedField>)
    decreases fields, 0
  {
    if fields == [] then items == []
    else
      && items != []
      && Holds(items[0], "name", Str(fields[0].name)) && EncodesIn(items[0], "type", fields[0].ty)
      && EncodesFields(items[1..], fields[1..])
  }

  /** Parameters that fit a byte, as in the specification (precision at most 38). */
  predicate WellSized(t: IcebergType)
    decreases t
  {
    match t
    case DecimalType(precision, scale) => precision < 256 && scale < 256
    case ListType(element) => WellSized(element)
    case MapType(key, value) => WellSized(key) && WellSized(value)
    case StructType(fields) => forall f | f in fields :: WellSized(f.ty)
    case _ => true
  }

  /** The column type of an Iceberg type: `fixed` and `binary` both become BLOB. */
  function Erase(t: IcebergType): LogicalType
    decreases t, 1
  {
    match t
    case BooleanType => Boolean
    case IntType => Integer
    case LongType => BigInt
    case FloatType => Float
    case DoubleType => Double
    case DateType => Date
    case TimeType => Time
    case TimestampType => Timestamp
    case TimestamptzType => TimestampTz
    case StringType => Varchar
    case UuidType => Uuid
    case BinaryType => Blob
    case FixedType(_) => Blob
    case DecimalType(precision, scale) => Decimal(precision, scale)
    case ListType(element) => List(Erase(element))
    case MapType(key, value) => Map(Erase(key), Erase(value))
    case StructType(fields) => Struct(EraseFields(fields))
  }

  function EraseFields(fields: seq<NestedField>): seq<Field>
    decreases fields, 0
  {
    if fields == [] then [] else [Field(fields[0].name, Erase(fields[0].ty))] + EraseFields(fields[1..])
  }

  // ----- stoi and the byte cast ------------------------------------------------------------------------

  lemma {:induction false} DigitsThen(d: string, w: string)
    requires (forall i | 0 <= i < |d| :: IsDigit(d[i])) && (w == "" || !IsDigit(w[0]))
    ensures DigitPrefix(d + w) == |d|
  {
    if d == "" {
      ConcatNil(w);
    } else {
      ConcatHead(d, w);
      DigitsThen(d[1..], w);
    }
  }

  lemma {:induction false} NumberIsDigits(d: string)
    requires NumberOf(d).Some?
    ensures d != "" && forall i | 0 <= i < |d| :: IsDigit(d[i])
  {
    if |d| > 1 {
      NumberIsDigits(d[..|d| - 1]);
    }
  }

  lemma {:induction false} TrimLeftThen(u: string, w: string)
    requires TrimLeft(u) != ""
    ensures TrimLeft(u + w) == TrimLeft(u) + w
  {
    ConcatHead(u, w);
    if u[0] == ' ' {
      TrimLeftThen(u[1..], w);
    }
  }

  predicate Blank(s: string) {
    forall i | 0 <= i < |s| :: s[i] == ' '
  }

  lemma {:induction false} TrimRightSplits(v: string) returns (spaces: string)
    ensures v == TrimRight(v) + spaces && Blank(spaces)
  {
    if v != "" && v[|v| - 1] == ' ' {
      var inner := TrimRightSplits(v[..|v| - 1]);
      ConcatAssoc(TrimRight(v), inner, " ");
      spaces := inner + " ";
    } else {
      spaces := "";
      ConcatNil(v);
    }
  }

  lemma {:induction false} TrimLeftSplits(v: string) returns (spaces: string)
    ensures v == spaces + TrimLeft(v) && Blank(spaces)
  {
    if v != "" && v[0] == ' ' {
      var inner := TrimLeftSplits(v[1..]);
      ConcatAssoc(" ", inner, TrimLeft(v));
      spaces := " " + inner;
    } else {
      spaces := "";
      ConcatNil(v);
    }
  }

  lemma {:induction false} TrimBlank(spaces: string, s: string)
    requires Blank(spaces) && (s == "" || s[0] != ' ')
    ensures TrimLeft(spaces + s) == s
  {
    if spaces == "" {
      ConcatNil(s);
    } else {
      ConcatHead(spaces, s);
      TrimBlank(spaces[1..], s);
    }
  }

  /** The sign `stoi` reads: none, plus or minus. */
  predicate IsSign(sign: string) {
    sign == "" || sign == "+" || sign == "-"
  }

  /** Spaces, a sign and the digits of a number, before anything but a digit: the number with its sign, or
      the error when it is outside the 32-bit range. */
  lemma StoiOf(spaces: string, sign: string, n: nat, rest: string)
    requires Blank(spaces) && IsSign(sign) && (rest == "" || !IsDigit(rest[0]))
    ensures var value: int := if sign == "-" then -(n as int) else n as int;
            Stoi(spaces + (sign + (Digits(n) + rest))) ==
            if -0x8000_0000 <= value <= 0x7fff_ffff then Success(value) else Failure(BadNumber)
  {
    hide Digits, NumberOf;
    var d := Digits(n);
    var unsigned := d + rest;
    assert IsDigit(d[0]) && unsigned[0] == d[0];
    var signed := sign + unsigned;
    assert sign != "" ==> signed[1..] == unsigned;
    assert sign == "" ==> signed == unsigned;
    TrimBlank(spaces, signed);
    DigitsThen(d, rest);
    NumberOfDigits(n);
    assert unsigned[..|d|] == d;
  }

  /** The byte cast accepts nothing but digits and spaces. */
  lemma CastChars(u: string, c: char)
    requires CastUInt8(u).Success? && c in u
    ensures IsDigit(c) || c == ' '
  {
    var left := TrimLeftSplits(u);
    var right := TrimRightSplits(TrimLeft(u));
    NumberIsDigits(TrimRight(TrimLeft(u)));
    assert c in left || c in TrimRight(TrimLeft(u)) || c in right;
  }

  /** Where the byte cast succeeds, stoi reads the same number, whatever non-digit follows. */
  lemma StoiAgrees(u: string, w: string)
    requires CastUInt8(u).Success? && (w == "" || !IsDigit(w[0]))
    ensures Stoi(u + w) == Success(CastUInt8(u).value)
  {
    var v := TrimLeft(u);
    var d := TrimRight(v);
    NumberIsDigits(d);
    var spaces := TrimRightSplits(v);
    TrimLeftThen(u, w);
    ConcatAssoc(d, spaces, w);
    DigitsThen(d, spaces + w);
    assert (d + (spaces + w))[..|d|] == d;
    assert (d + (spaces + w))[0] == d[0];
  }

  // ----- the theorems --------------------------------------------------------------------------------

  lemma DecimalBranch(name: string)
    requires StartsWith(name, DECIMAL)
    ensures ParsePrimitive(name) == ParseJsonDecimal(name)
    ensures ParseType(name) == ParseDecimal(name)
  {
    hide ParseJsonDecimal, ParseDecimal;
    DecimalNotScalar(name);
    assert name[..7] == "decimal";
  }

  lemma DecimalNotScalar(name: string)
    requires StartsWith(name, DECIMAL)
    ensures ScalarOf(name).None?
    ensures name != "double" && name != "date" && !StartsWith(name, "fixed")
  {
    assert name[0] == 'd' && name[1] == 'e';
  }

  function DecimalFrom(width: Result<int, Error>, scale: Result<int, Error>): Result<LogicalType, Error> {
    if width.Failure? then Failure(width.error)
    else if scale.Failure? then Failure(scale.error)
    else Success(Decimal(width.value % 256, scale.value % 256))
  }

  lemma JsonDecimalParts(name: string, p: string, rest: string)
    requires name == DECIMAL + (p + ("," + rest)) && ',' !in p && ',' !in rest
    requires rest != "" && rest[|rest| - 1] == ')'
    ensures ParseJsonDecimal(name) == DecimalFrom(Stoi(p), Stoi(rest))
  {
    hide Stoi, FindChar;
    var body := p + ("," + rest);
    FindCharIs(p, ',', rest);
    assert name[8..] == body && name[7] == '(' && name[|name| - 1] == ')';
    assert body[..|p|] == p && body[|p| + 1..] == rest;
  }

  /** A decimal name in parts; `scale` may start with a space. */
  lemma DecimalNameParts(name: string, p: string, scale: string)
    requires name == DECIMAL + p + "," + scale + ")"
    ensures name == DECIMAL + (p + ("," + (scale + ")"))) && StartsWith(name, DECIMAL)
  {
    ConcatAssoc(",", scale, ")");
    ConcatAssoc(p, "," + scale, ")");
    ConcatAssoc(DECIMAL, p + ("," + scale), ")");
    ConcatAssoc(p, ",", scale);
    ConcatAssoc(DECIMAL + p, ",", scale);
    ConcatAssoc(DECIMAL, p, "," + scale);
    assert name[..8] == DECIMAL;
  }

  /** A decimal name gives its numbers, cut to a byte each. */
  lemma ParseNamedDecimal(name: string, precision: nat, scale: nat)
    requires precision < 0x8000_0000 && scale < 0x8000_0000 && NamesPrimitive(name, DecimalType(precision, scale))
    ensures ParsePrimitive(name) == Success(Decimal(precision % 256, scale % 256))
  {
    hide Stoi, CastUInt8, ParsePrimitive, ParseJsonDecimal, ParseType;
    if name == "decimal(" + Digits(precision) + "," + Digits(scale) + ")" {
      ParseDecimalWith(name, precision, scale, Digits(scale));
    } else {
      assert name == DECIMAL + Digits(precision) + "," + (" " + Digits(scale)) + ")" by {
        ConcatAssoc(DECIMAL + Digits(precision), ",", " " + Digits(scale));
        ConcatAssoc(",", " ", Digits(scale));
        ConcatAssoc(DECIMAL + Digits(precision), ", ", Digits(scale));
      }
      ParseDecimalWith(name, precision, scale, " " + Digits(scale));
    }
  }

  lemma ParseDecimalWith(name: string, precision: nat, scale: nat, spaced: string)
    requires precision < 0x8000_0000 && scale < 0x8000_0000 && (spaced == Digits(scale) || spaced == " " + Digits(scale))
    requires name == DECIMAL + Digits(precision) + "," + spaced + ")"
    ensures ParsePrimitive(name) == Success(Decimal(precision % 256, scale % 256))
  {
    hide Stoi, CastUInt8, ParsePrimitive, ParseJsonDecimal, ParseType, Digits, StartsWith, DecimalFrom;
    var p := Digits(precision);
    ReadsNumber(p, "", precision);
    ConcatNil(p);
    ReadsNumber(spaced, ")", scale);
    DecimalNameParts(name, p, spaced);
    DecimalBranch(name);
    NoCommaIn(precision);
    NoCommaIn(scale);
    JsonDecimalParts(name, p, spaced + ")");
    FromNumbers(precision, scale);
  }

  lemma ReadsNumber(u: string, w: string, n: nat)
    requires n < 0x8000_0000 && (u == Digits(n) || u == " " + Digits(n)) && (w == "" || !IsDigit(w[0]))
    ensures Stoi(u + w) == Success(n)
  {
    hide Stoi, Digits;
    var spaces := if u == Digits(n) then "" else " ";
    StoiOf(spaces, "", n, w);
    ConcatNil(Digits(n) + w);
    ConcatNil(u + w);
    ConcatAssoc(" ", Digits(n), w);
  }

  lemma NoCommaIn(n: nat)
    ensures ',' !in Digits(n) && ',' !in " " + Digits(n) && ',' !in Digits(n) + ")" && ',' !in " " + Digits(n) + ")"
  {
  }

  lemma FromNumbers(width: nat, scale: nat)
    ensures DecimalFrom(Success(width), Success(scale)) == Success(Decimal(width % 256, scale % 256))
  {
  }

  lemma ParseListIs(j: Json, element: Json)
    requires Get(j, "type") == Some(Str("list")) && Get(j, "element") == Some(element)
    ensures ParseTypeValue(j) == ListOf(ParseTypeValue(element))
  {
    assert ParseTypeValue(j) == ListOf(ParseMember(j, "element"));
  }

  lemma ParseMapIs(j: Json, key: Json, value: Json)
    requires Get(j, "type") == Some(Str("map")) && Get(j, "key") == Some(key) && Get(j, "value") == Some(value)
    ensures ParseTypeValue(j) == MapOf(ParseTypeValue(key), ParseTypeValue(value))
  {
    assert ParseTypeValue(j) == MapOf(ParseMember(j, "key"), ParseMember(j, "value"));
  }

  lemma ParseStructIs(j: Json, items: seq<Json>)
    requires Get(j, "type") == Some(Str("struct")) && Get(j, "fields") == Some(Arr(items))
    ensures ParseTypeValue(j) == StructOf(ParseItems(items))
  {
    assert ParseTypeValue(j) == StructOf(ParseStruct(j));
  }

  lemma HeldIs(j: Json, key: string, value: Json)
    requires Holds(j, key, value)
    ensures Get(j, key) == Some(value)
  {
    GetIs(j, key);
  }

  /** Parsing inverts the JSON encoding, for every nested type, up to the erasure of fixed and binary. */
  lemma {:induction false} ParseEncoded(j: Json, t: IcebergType)
    requires Encodes(j, t) && WellSized(t)
    ensures ParseTypeValue(j) == Success(Erase(t))
    decreases t, 1
  {
    hide Get, ParsePrimitive, NamesPrimitive, ParseItems, EncodesIn, ParseTypeValue;
    match t {
      case ListType(element) =>
        HeldIs(j, "type", Str("list"));
        var child := ParseEncodedIn(j, "element", element);
        ParseListIs(j, child);
      case MapType(key, value) =>
        HeldIs(j, "type", Str("map"));
        var keyJson := ParseEncodedIn(j, "key", key);
        var valueJson := ParseEncodedIn(j, "value", value);
        ParseMapIs(j, keyJson, valueJson);
      case StructType(fields) =>
        HeldIs(j, "type", Str("struct"));
        var k :| FirstAt(j.members, "fields", k) && j.members[k].value.Arr? && EncodesFields(j.members[k].value.items, fields);
        GetIs(j, "fields");
        ParseStructIs(j, j.members[k].value.items);
        ParseEncodedFields(j.members[k].value.items, fields);
      case _ => ParseNamed(j, t);
    }
  }

  lemma {:induction false} ParseEncodedIn(j: Json, key: string, t: IcebergType) returns (value: Json)
    requires EncodesIn(j, key, t) && WellSized(t)
    ensures Get(j, key) == Some(value) && ParseTypeValue(value) == Success(Erase(t))
    decreases t, 2
  {
    hide Get, ParseTypeValue, Encodes, WellSized;
    var k :| FirstAt(j.members, key, k) && Encodes(j.members[k].value, t);
    GetIs(j, key);
    value := j.members[k].value;
    ParseEncoded(value, t);
  }

  lemma ParseNamed(j: Json, t: IcebergType)
    requires j.Str? && NamesPrimitive(j.s, t) && WellSized(t)
    ensures ParseTypeValue(j) == Success(Erase(t))
  {
    hide ParsePrimitive, NamesPrimitive;
    match t {
      case DecimalType(precision, scale) => ParseNamedDecimal(j.s, precision, scale);
      case FixedType(length) => FixedName(j.s, length);
      case _ => ParsePlain(j.s, t);
    }
  }

  lemma ParsePlain(name: string, t: IcebergType)
    requires NamesPrimitive(name, t) && !t.DecimalType? && !t.FixedType?
    ensures ParsePrimitive(name) == Success(Erase(t))
  {
  }

  lemma FixedName(name: string, length: nat)
    requires NamesPrimitive(name, FixedType(length))
    ensures ParsePrimitive(name) == Success(Blob)
  {
    assert name[..5] == "fixed" && name[0] == 'f' && name[1] == 'i';
  }

  lemma {:induction false} ParseEncodedFields(items: seq<Json>, fields: seq<NestedField>)
    requires EncodesFields(items, fields) && forall f | f in fields :: WellSized(f.ty)
    ensures ParseItems(items) == Success(EraseFields(fields))
    decreases fields, 0
  {
    hide Get, Holds, EncodesIn, ParseTypeValue, Encodes, WellSized;
    if fields != [] {
      HeldIs(items[0], "name", Str(fields[0].name));
      var ty := ParseEncodedIn(items[0], "type", fields[0].ty);
      ParseEncodedFields(items[1..], fields[1..]);
      assert ParseItem(items[0]) == NameField(fields[0].name, ParseMember(items[0], "type"));
    }
  }

  // ----- a document for every type -------------------------------------------------------------------------

  /** The name of a primitive type. */
  function NameOf(t: IcebergType): string {
    match t
    case BooleanType => "boolean"
    case IntType => "int"
    case LongType => "long"
    case FloatType => "float"
    case DoubleType => "double"
    case DateType => "date"
    case TimeType => "time"
    case TimestampType => "timestamp"
    case TimestamptzType => "timestamptz"
    case StringType => "string"
    case UuidType => "uuid"
    case BinaryType => "binary"
    case FixedType(length) => "fixed[" + Digits(length) + "]"
    case DecimalType(precision, scale) => "decimal(" + Digits(precision) + ", " + Digits(scale) + ")"
    case _ => ""
  }

  /** The JSON document of a type, members in the order of the specification's examples. */
  function Document(t: IcebergType): Json
    decreases t, 1
  {
    match t
    case ListType(element) =>
      Obj([Member("type", Str("list")), Member("element-id", Num(1)), Member("element-required", Bool(true)),
           Member("element", Document(element))])
    case MapType(key, value) =>
      Obj([Member("type", Str("map")), Member("key-id", Num(1)), Member("key", Document(key)),
           Member("value-id", Num(2)), Member("value-required", Bool(false)), Member("value", Document(value))])
    case StructType(fields) => Obj([Member("type", Str("struct")), Member("fields", Arr(FieldDocuments(fields)))])
    case _ => Str(NameOf(t))
  }

  function FieldDocuments(fields: seq<NestedField>): seq<Json>
    decreases fields, 0
  {
    if fields == [] then []
    else
      [Obj([Member("id", Num(1)), Member("name", Str(fields[0].name)), Member("required", Bool(false)),
            Member("type", Document(fields[0].ty))])] + FieldDocuments(fields[1..])
  }

  lemma HoldsAt(members: seq<Member>, key: string, k: int)
    requires FirstAt(members, key, k)
    ensures Holds(Obj(members), key, members[k].value)
    ensures forall t :: Encodes(members[k].value, t) ==> EncodesIn(Obj(members), key, t)
  {
    hide Encodes;
    var j := Obj(members);
    assert FirstAt(j.members, key, k) && j.members[k].value == members[k].value;
  }

  lemma ListDocument(element: IcebergType)
    requires Encodes(Document(element), element)
    ensures Encodes(Document(ListType(element)), ListType(element))
  {
    var members := Document(ListType(element)).members;
    HoldsAt(members, "type", 0);
    HoldsAt(members, "element", 3);
  }

  lemma MapDocument(key: IcebergType, value: IcebergType)
    requires Encodes(Document(key), key) && Encodes(Document(value), value)
    ensures Encodes(Document(MapType(key, value)), MapType(key, value))
  {
    var members := Document(MapType(key, value)).members;
    HoldsAt(members, "type", 0);
    HoldsAt(members, "key", 2);
    HoldsAt(members, "value", 5);
  }

  lemma StructDocument(fields: seq<NestedField>)
    requires EncodesFields(FieldDocuments(fields), fields)
    ensures Encodes(Document(StructType(fields)), StructType(fields))
  {
    var members := Document(StructType(fields)).members;
    HoldsAt(members, "type", 0);
    assert FirstAt(members, "fields", 1);
  }

  /** The document of a type is one of its forms. */
  lemma {:induction false} DocumentEncodes(t: IcebergType)
    ensures Encodes(Document(t), t)
    decreases t, 1
  {
    match t {
      case ListType(element) =>
        hide Encodes, Document;
        DocumentEncodes(element);
        ListDocument(element);
      case MapType(key, value) =>
        hide Encodes, Document;
        DocumentEncodes(key);
        DocumentEncodes(value);
        MapDocument(key, value);
      case StructType(fields) =>
        hide Encodes, Document;
        DocumentsEncode(fields);
        StructDocument(fields);
      case _ =>
        assert NamesPrimitive(NameOf(t), t);
    }
  }

  lemma {:induction false} DocumentsEncode(fields: seq<NestedField>)
    ensures EncodesFields(FieldDocuments(fields), fields)
    decreases fields, 0
  {
    hide Encodes, Document;
    if fields != [] {
      var members := FieldDocuments(fields)[0].members;
      DocumentEncodes(fields[0].ty);
      HoldsAt(members, "name", 1);
      HoldsAt(members, "type", 3);
      DocumentsEncode(fields[1..]);
      assert FieldDocuments(fields)[1..] == FieldDocuments(fields[1..]);
    }
  }

  /** Round trip: parsing the document of any type gives its column type. */
  lemma ParseDocument(t: IcebergType)
    requires WellSized(t)
    ensures ParseTypeValue(Document(t)) == Success(Erase(t))
  {
    DocumentEncodes(t);
    ParseEncoded(Document(t), t);
  }

  lemma {:induction false} FindCharSkip(a: string, b: string, c: char)
    requires c !in a
    ensures FindChar(a + b, c) == match FindChar(b, c) { case None => None case Some(i) => Some(|a| + i) }
  {
    if a == "" {
      ConcatNil(b);
    } else {
      ConcatHead(a, b);
      FindCharSkip(a[1..], b, c);
    }
  }

  /** The two cuts of a decimal name that the string parser accepts. */
  lemma DecimalCuts(name: string) returns (sep: nat, specEnd: nat)
    requires StartsWith(name, DECIMAL) && ParseDecimal(name).Success? && FindChar(name[8..], ',').Some?
    ensures var body := name[8..];
            && FindChar(body, ',') == Some(sep) && sep < specEnd < |body| && body[specEnd] == ')'
            && CastUInt8(body[..sep]).Success? && CastUInt8(body[sep + 1..specEnd]).Success?
            && ParseDecimal(name).value == Decimal(CastUInt8(body[..sep]).value, CastUInt8(body[sep + 1..specEnd]).value)
  {
    hide CastUInt8, FindChar;
    var body := name[8..];
    assert name == DECIMAL + body;
    FindCharSkip(DECIMAL, body, ',');
    FindCharSkip(DECIMAL, body, ')');
    sep, specEnd := FindChar(body, ',').value, FindChar(body, ')').value;
    assert name[8..8 + sep] == body[..sep];
    assert specEnd < sep ==> body[..sep][specEnd] == ')';
    if specEnd < sep {
      CastChars(body[..sep], ')');
    }
    assert name[8 + sep + 1..8 + specEnd] == body[sep + 1..specEnd];
  }

  /** The string parser reads a decimal only with a comma before the first closing bracket and a byte on
      each side of it. */
  lemma DecimalNeeds(name: string)
    requires StartsWith(name, DECIMAL) && ParseDecimal(name).Success?
    ensures FindChar(name, ',').Some? && FindChar(name, ')').Some?
    ensures var sep, end := FindChar(name, ',').value, FindChar(name, ')').value;
            && 8 <= sep < end < |name|
            && CastUInt8(name[8..sep]).Success? && CastUInt8(name[sep + 1..end]).Success?
  {
    hide CastUInt8, FindChar;
    var sep, end := FindChar(name, ','), FindChar(name, ')').value;
    assert forall i | 0 <= i < 8 :: name[..8][i] == name[i];
    assert end >= 8;
    if sep.None? {
      assert name[8..][end - 8] == ')';
      CastChars(name[8..], ')');
    } else {
      assert sep.value >= 8;
      if end < sep.value {
        assert name[8..sep.value][end - 8] == ')';
        CastChars(name[8..sep.value], ')');
      }
    }
  }

  /** Where both decimal branches succeed they read the same precision and scale. */
  lemma DecimalsAgree(name: string)
    requires StartsWith(name, DECIMAL)
    requires ParseDecimal(name).Success? && ParseJsonDecimal(name).Success?
    ensures ParseDecimal(name) == ParseJsonDecimal(name)
  {
    hide CastUInt8, Stoi, FindChar, ParseDecimal, StartsWith;
    var body := name[8..];
    var sep, specEnd := DecimalCuts(name);
    var scale, after := body[sep + 1..specEnd], body[specEnd..];
    StoiAgrees(body[..sep], "");
    ConcatNil(body[..sep]);
    StoiAgrees(scale, after);
    assert body[sep + 1..] == scale + after;
    CastBelow(body[..sep]);
    CastBelow(scale);
  }

  lemma CastBelow(u: string)
    requires CastUInt8(u).Success?
    ensures CastUInt8(u).value < 256
  {
  }

  /** Which strings name a primitive type. */
  lemma PrimitiveNames(name: string)
    ensures ParsePrimitive(name).Success? <==>
            || name in {"boolean", "int", "long", "float", "double", "date", "time", "timestamp", "timestamptz", "string",
                        "uuid", "binary"}
            || (|name| >= 5 && name[..5] == "fixed")
            || (|name| >= 7 && name[..7] == "decimal" && ParseJsonDecimal(name).Success?)
  {
    hide ParseJsonDecimal;
    if StartsWith(name, "decimal") {
      assert name[0] == 'd' && name[1] == 'e';
    }
  }

  /** A decimal name needs both brackets, exactly one comma, and a number on each side of it. */
  lemma JsonDecimalNeeds(name: string)
    requires ParseJsonDecimal(name).Success?
    ensures |name| >= 9 && name[7] == '(' && name[|name| - 1] == ')'
    ensures exists sep :: 8 <= sep < |name| && name[sep] == ',' && (forall i | 8 <= i < |name| && name[i] == ',' :: i == sep) &&
                          Stoi(name[8..sep]).Success? && Stoi(name[sep + 1..]).Success?
  {
    hide Stoi;
    var body := name[8..];
    var sep := FindChar(body, ',').value;
    assert body[..sep] == name[8..8 + sep] && body[sep + 1..] == name[8 + sep + 1..];
    OnlyAt(body, ',', sep);
    forall i | 8 <= i < |name| && name[i] == ',' ensures i == 8 + sep {
      assert body[i - 8] == ',';
    }
    assert name[8 + sep] == ',';
  }

  lemma OnlyAt<T>(s: seq<T>, c: T, k: nat)
    requires k < |s| && c !in s[..k] && c !in s[k + 1..]
    ensures forall i | 0 <= i < |s| && s[i] == c :: i == k
  {
    forall i | 0 <= i < |s| && i != k ensures s[i] != c {
      if i < k {
        assert s[i] == s[..k][i];
      } else {
        assert s[i] == s[k + 1..][i - (k + 1)];
      }
    }
  }

  /** What the lookup finds is held. */
  lemma GotIsHeld(j: Json, key: string)
    requires Get(j, key).Some?
    ensures Holds(j, key, Get(j, key).value)
  {
    GetIs(j, key);
    var k :| FirstAt(j.members, key, k);
  }

  /** What is not a type: anything but a string or an object, and an object whose type is missing, not a
      string or unknown. */
  lemma OtherJson(j: Json)
    ensures !j.Str? && !j.Obj? ==> ParseTypeValue(j).Failure?
    ensures j.Obj? && ParseTypeValue(j).Success? ==>
              Holds(j, "type", Str("struct")) || Holds(j, "type", Str("list")) || Holds(j, "type", Str("map"))
  {
    hide ParseStruct, ParseMember, Get, Holds;
    if j.Obj? && ParseTypeValue(j).Success? {
      assert ParseTypeValue(j) == ParseComplexType(j);
      GotIsHeld(j, "type");
    }
  }

  /** A struct without an array of fields has none. */
  lemma FieldlessStruct(j: Json)
    requires Holds(j, "type", Str("struct")) && forall items :: !Holds(j, "fields", Arr(items))
    ensures ParseTypeValue(j) == Success(Struct([]))
  {
    HeldIs(j, "type", Str("struct"));
    hide ParseItems, Get, Holds;
    if Get(j, "fields").Some? {
      GotIsHeld(j, "fields");
    }
    assert ParseStruct(j) == Success([]);
    assert ParseTypeValue(j) == StructOf(ParseStruct(j));
  }

  /** The names types are printed with are the specification's, where it has the type: the schema parser
      reads them as the same types. It has no 8-bit and 16-bit integers. */
  lemma PrintedInSchema(t: LogicalType)
    requires Printable(t) && !t.List? && !t.Map? && !t.Struct?
    ensures if t in {TinyInt, UTinyInt, SmallInt, USmallInt} then ParsePrimitive(Print(t)).Failure?
            else ParsePrimitive(Print(t)) == Success(Signed(t))
  {
    if t.Decimal? {
      PrintedDecimal(t.width, t.scale);
    } else {
      hide ParseJsonDecimal, StartsWith;
      PrintedStarts(t);
    }
  }

  lemma PrintedDecimal(width: nat, scale: nat)
    requires width < 256 && scale < 256
    ensures ParsePrimitive(Print(Decimal(width, scale))) == Success(Decimal(width, scale))
  {
    hide ParsePrimitive, Digits;
    var name := Print(Decimal(width, scale));
    assert NamesPrimitive(name, DecimalType(width, scale));
    ParseNamedDecimal(name, width, scale);
  }

  lemma PrintedStarts(t: LogicalType)
    requires Printable(t) && !t.List? && !t.Map? && !t.Struct? && !t.Decimal?
    ensures !StartsWith(Print(t), "fixed") && !StartsWith(Print(t), "decimal")
  {
    hide StartsWith;
    var name := Print(t);
    assert |name| > 1;
    StartsLetters(name, "fixed");
    StartsLetters(name, "decimal");
  }

  /** The two parsers agree on every primitive name that both accept, decimals included. */
  lemma PrimitivesAgree(name: string)
    requires ParsePrimitive(name).Success? && ParseType(name).Success?
    ensures ParsePrimitive(name) == ParseType(name)
  {
    hide ParsePrimitive, ParseJsonDecimal, ParseDecimal, ScalarOf;
    if StartsWith(name, DECIMAL) {
      DecimalBranch(name);
      DecimalsAgree(name);
    } else if ScalarOf(name).Some? {
      ScalarsAgree(name);
    } else {
      NestedNotPrimitive(name);
    }
  }

  lemma ScalarsAgree(name: string)
    requires ScalarOf(name).Some? && ParsePrimitive(name).Success?
    ensures ParsePrimitive(name) == Success(ScalarOf(name).value)
  {
    hide ParseJsonDecimal, StartsWith;
    ScalarLetters(name);
  }

  lemma StartsLetters(name: string, prefix: string)
    requires |name| > 1 && |prefix| > 1 && (name[0] != prefix[0] || name[1] != prefix[1])
    ensures !StartsWith(name, prefix)
  {
  }

  lemma ScalarLetters(name: string)
    requires ScalarOf(name).Some?
    ensures !StartsWith(name, "fixed") && !StartsWith(name, "decimal")
  {
    hide StartsWith;
    assert |name| > 1;
    StartsLetters(name, "fixed");
    StartsLetters(name, "decimal");
  }

  lemma NestedNotPrimitive(name: string)
    requires StartsWith(name, ARRAY) || StartsWith(name, MAP) || StartsWith(name, STRUCT)
    ensures ParsePrimitive(name).Failure?
  {
    hide ParseJsonDecimal, DigitPrefix, NumberOf;
    if StartsWith(name, ARRAY) {
      assert name[0] == 'a';
    } else if StartsWith(name, MAP) {
      assert name[0] == 'm';
    } else {
      assert name[0] == 's' && name[3] == 'u';
    }
  }
}
