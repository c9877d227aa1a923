/** Type names: `LogicalToIcebergType`, `TypeToLogicalType` and its depth-counting splitter. */
module TypeStrings {
  import opened Basics

  datatype LogicalType =
    | TinyInt | SmallInt | Integer | BigInt | UTinyInt | USmallInt | UInteger | UBigInt
    | Varchar | Double | Float | Boolean | Timestamp | TimestampTz | Blob | Date | Time | Uuid
    | Decimal(width: nat, scale: nat)
    | List(child: LogicalType)
    | Map(key: LogicalType, value: LogicalType)
    | Struct(fields: seq<Field>)

  datatype Field = Field(name: string, ty: LogicalType)

  // ----- characters and numbers --------------------------------------------------------------------

  predicate StartsWith(s: string, prefix: string) {
    |prefix| <= |s| && s[..|prefix|] == prefix
  }

  /** `find` of one character. */
  function FindChar(s: string, c: char): (r: Option<nat>)
    ensures r.Some? ==> r.value < |s| && s[r.value] == c && c !in s[..r.value]
    ensures r.None? ==> c !in s
  {
    if s == "" then None
    else if s[0] == c then Some(0)
    else match FindChar(s[1..], c) { case Some(i) => Some(i + 1) case None => None }
  }

  /** `rfind` of one character. */
  function RFindChar(s: string, c: char): (r: Option<nat>)
    ensures r.Some? ==> r.value < |s| && s[r.value] == c && c !in s[r.value + 1..]
    ensures r.None? ==> c !in s
  {
    if s == "" then None
    else if s[|s| - 1] == c then Some(|s| - 1)
    else RFindChar(s[..|s| - 1], c)
  }

  lemma {:induction false} FindCharIs(a: string, c: char, b: string)
    requires c !in a
    ensures FindChar(a + ([c] + b), c) == Some(|a|)
  {
    if a == "" {
      ConcatNil([c] + b);
    } else {
      ConcatHead(a, [c] + b);
      FindCharIs(a[1..], c, b);
    }
  }

  function Digits(n: nat): (s: string)
    ensures s != "" && forall i | 0 <= i < |s| :: '0' <= s[i] <= '9'
  {
    if n < 10 then ['0' + n as char] else Digits(n / 10) + ['0' + (n % 10) as char]
  }

  /** Decimal, the most significant digit first. */
  lemma DigitsExamples()
    ensures Digits(7) == "7" && Digits(38) == "38" && Digits(204) == "204"
  {
    assert Digits(20) == Digits(2) + "0";
    assert Digits(204) == Digits(20) + "4";
  }

  /** The value of a non-empty string of digits. */
  function NumberOf(s: string): Option<nat> {
    if s == "" then None
    else
      var last := s[|s| - 1];
      if !('0' <= last <= '9') then None
      else if |s| == 1 then Some((last - '0') as nat)
      else match NumberOf(s[..|s| - 1]) { case None => None case Some(n) => Some(10 * n + (last - '0') as nat) }
  }

  lemma {:induction false} NumberOfDigits(n: nat)
    ensures NumberOf(Digits(n)) == Some(n)
  {
    if n >= 10 {
      NumberOfDigits(n / 10);
      var s := Digits(n);
      assert s[..|s| - 1] == Digits(n / 10);
    }
  }

  function TrimLeft(s: string): string {
    if s != "" && s[0] == ' ' then TrimLeft(s[1..]) else s
  }

  function TrimRight(s: string): string {
    if s != "" && s[|s| - 1] == ' ' then TrimRight(s[..|s| - 1]) else s
  }

  /** The cast to an unsigned byte: digits between optional spaces, at most 255. */
  function CastUInt8(s: string): Result<nat, Error> {
    match NumberOf(TrimRight(TrimLeft(s)))
    case None => Failure(BadNumber)
    case Some(n) => if n < 256 then Success(n) else Failure(BadNumber)
  }

  lemma CastDigits(n: nat)
    requires n < 256
    ensures CastUInt8(Digits(n)) == Success(n) && CastUInt8(" " + Digits(n)) == Success(n)
  {
    var s := Digits(n);
    NumberOfDigits(n);
    assert s[0] != ' ' && s[|s| - 1] != ' ';
    assert (" " + s)[1..] == s;
    assert TrimLeft(" " + s) == TrimLeft(s) == s;
  }

  // ----- the splitter ----------------------------------------------------------------------------

  function Delta(c: char): int {
    if c == '<' then 1 else if c == '>' then -1 else 0
  }

  /** The pieces between the commas that are not nested, entered at nesting `depth`. */
  function Split(s: string, depth: int): (pieces: seq<string>)
    ensures pieces != []
    ensures forall i | 0 <= i < |pieces| :: |pieces[i]| <= |s|
  {
    if s == "" then [""]
    else if s[0] == ',' && depth <= 0 then [""] + Split(s[1..], depth)
    else Glue([s[0]], Split(s[1..], depth + Delta(s[0])))
  }

  function Glue(head: string, pieces: seq<string>): (glued: seq<string>)
    requires pieces != []
    ensures |glued| == |pieces|
  {
    [head + pieces[0]] + pieces[1..]
  }

  function Net(s: string): int {
    if s == "" then 0 else Delta(s[0]) + Net(s[1..])
  }

  /** No comma of `s` is outside all brackets when `s` is entered at nesting `depth`. */
  predicate Uncut(s: string, depth: int) {
    s == "" || (!(s[0] == ',' && depth <= 0) && Uncut(s[1..], depth + Delta(s[0])))
  }

  /** Balanced, and without a comma of its own. */
  predicate Whole(s: string) {
    Net(s) == 0 && Uncut(s, 0)
  }

  lemma {:induction false} NetConcat(a: string, b: string)
    ensures Net(a + b) == Net(a) + Net(b)
  {
    if a == "" {
      ConcatNil(b);
    } else {
      ConcatHead(a, b);
      NetConcat(a[1..], b);
    }
  }

  lemma {:induction false} UncutConcat(a: string, b: string, depth: int)
    ensures Uncut(a + b, depth) <==> Uncut(a, depth) && Uncut(b, depth + Net(a))
  {
    if a == "" {
      ConcatNil(b);
    } else {
      ConcatHead(a, b);
      UncutConcat(a[1..], b, depth + Delta(a[0]));
    }
  }

  lemma {:induction false} UncutDeeper(s: string, depth: int, deeper: int)
    requires Uncut(s, depth) && depth <= deeper
    ensures Uncut(s, deeper)
  {
    if s != "" {
      UncutDeeper(s[1..], depth + Delta(s[0]), deeper + Delta(s[0]));
    }
  }

  lemma GlueConcat(a: string, b: string, pieces: seq<string>)
    requires pieces != []
    ensures Glue(a, Glue(b, pieces)) == Glue(a + b, pieces)
  {
    ConcatAssoc(a, b, pieces[0]);
  }

  /** An uncut prefix stays in the first piece. */
  lemma {:induction false} SplitUncut(a: string, b: string, depth: int)
    requires Uncut(a, depth)
    ensures Split(a + b, depth) == Glue(a, Split(b, depth + Net(a)))
  {
    if a == "" {
      ConcatNil(b);
      ConcatNil(Split(b, depth)[0]);
    } else {
      ConcatHead(a, b);
      SplitUncut(a[1..], b, depth + Delta(a[0]));
      GlueConcat([a[0]], a[1..], Split(b, depth + Net(a)));
      assert a == [a[0]] + a[1..];
    }
  }

  lemma SplitWhole(a: string)
    requires Whole(a)
    ensures Split(a, 0) == [a]
  {
    SplitUncut(a, "", 0);
    ConcatNil(a);
  }

  lemma SplitComma(rest: string)
    ensures Split("," + rest, 0) == [""] + Split(rest, 0)
  {
    assert ("," + rest)[1..] == rest;
  }

  lemma GlueEmpty(a: string, pieces: seq<string>)
    ensures Glue(a, [""] + pieces) == [a] + pieces
  {
    ConcatNil(a);
    ConcatHead([""], pieces);
    ConcatNil(pieces);
  }

  lemma SplitAtComma(a: string, rest: string)
    requires Whole(a)
    ensures Split(a + ("," + rest), 0) == [a] + Split(rest, 0)
  {
    hide Split, Glue, Uncut, Net;
    SplitUncut(a, "," + rest, 0);
    SplitComma(rest);
    GlueEmpty(a, Split(rest, 0));
  }

  function Join(pieces: seq<string>): string {
    if pieces == [] then ""
    else if |pieces| == 1 then pieces[0]
    else pieces[0] + ("," + Join(pieces[1..]))
  }

  /** The splitter recovers any non-empty list of whole pieces from their join. */
  lemma {:induction false} SplitJoin(pieces: seq<string>)
    requires pieces != [] && forall i | 0 <= i < |pieces| :: Whole(pieces[i])
    ensures Split(Join(pieces), 0) == pieces
  {
    if |pieces| == 1 {
      SplitWhole(pieces[0]);
    } else {
      SplitAtComma(pieces[0], Join(pieces[1..]));
      SplitJoin(pieces[1..]);
    }
  }

  /** Where it cuts such a join, the nesting depth is zero: the pieces before the cut are balanced. */
  lemma {:induction false} CutsAtDepthZero(pieces: seq<string>, k: nat)
    requires 0 < k < |pieces| && forall i | 0 <= i < |pieces| :: Whole(pieces[i])
    ensures Join(pieces) == Join(pieces[..k]) + ("," + Join(pieces[k..]))
    ensures Net(Join(pieces[..k])) == 0
    decreases k
  {
    hide Net, Uncut;
    var before, rest := pieces[..k], pieces[1..];
    if k > 1 {
      CutsAtDepthZero(rest, k - 1);
      assert before[1..] == rest[..k - 1] && rest[k - 1..] == pieces[k..];
      NetConcat(pieces[0], "," + Join(before[1..]));
      NetConcat(",", Join(before[1..]));
      NetComma();
      ConcatAssoc(",", Join(before[1..]), "," + Join(pieces[k..]));
      ConcatAssoc(pieces[0], "," + Join(before[1..]), "," + Join(pieces[k..]));
    }
  }

  lemma NetComma()
    ensures Net(",") == 0
  {
  }

  lemma JoinGlue(head: string, pieces: seq<string>)
    requires pieces != []
    ensures Join(Glue(head, pieces)) == head + Join(pieces)
  {
    var glued := Glue(head, pieces);
    assert glued[1..] == pieces[1..];
    if |pieces| > 1 {
      ConcatAssoc(head, pieces[0], "," + Join(pieces[1..]));
    }
  }

  /** Whatever the text, the splitter drops nothing but the commas it cuts at. */
  lemma {:induction false} JoinSplit(s: string, depth: int)
    ensures Join(Split(s, depth)) == s
    decreases s
  {
    if s != "" {
      assert s == [s[0]] + s[1..];
      if s[0] == ',' && depth <= 0 {
        var pieces := Split(s[1..], depth);
        JoinSplit(s[1..], depth);
        assert ([""] + pieces)[1..] == pieces;
        ConcatNil("," + Join(pieces));
      } else {
        JoinSplit(s[1..], depth + Delta(s[0]));
        JoinGlue([s[0]], Split(s[1..], depth + Delta(s[0])));
      }
    }
  }

  // ----- parsing -----------------------------------------------------------------------------------

  function ScalarOf(text: string): Option<LogicalType> {
    if text == "tinyint" then Some(TinyInt)
    else if text == "smallint" then Some(SmallInt)
    else if text == "bigint" then Some(BigInt)
    else if text == "int" then Some(Integer)
    else if text == "long" then Some(BigInt)
    else if text == "string" then Some(Varchar)
    else if text == "double" then Some(Double)
    else if text == "float" then Some(Float)
    else if text == "boolean" then Some(Boolean)
    else if text == "timestamp" then Some(Timestamp)
    else if text == "timestamptz" then Some(TimestampTz)
    else if text == "binary" then Some(Blob)
    else if text == "date" then Some(Date)
    else None
  }

  const DECIMAL: string := "decimal("
  const ARRAY: string := "array<"
  const MAP: string := "map<"
  const STRUCT: string := "struct<"

  /** The text after `decimal(`, cut at the first comma and the first closing bracket. */
  function ParseDecimal(text: string): Result<LogicalType, Error>
    requires StartsWith(text, DECIMAL)
  {
    match FindChar(text, ')')
    case None => Failure(UnknownType)
    case Some(specEnd) =>
      var sep := FindChar(text, ',');
      var precision := if sep.Some? && sep.value >= 8 then text[8..sep.value] else text[8..];
      var scale := if sep.None? then text[..specEnd]
                   else if sep.value < specEnd then text[sep.value + 1..specEnd]
                   else text[sep.value + 1..];
      match CastUInt8(precision)
      case Failure(error) => Failure(error)
      case Success(p) =>
        match CastUInt8(scale)
        case Failure(error) => Failure(error)
        case Success(n) => Success(Decimal(p, n))
  }

  function ParseType(text: string): Result<LogicalType, Error>
    decreases |text|, 2
  {
    if ScalarOf(text).Some? then Success(ScalarOf(text).value)
    else if StartsWith(text, DECIMAL) then ParseDecimal(text)
    else if StartsWith(text, ARRAY) && RFindChar(text, '>').Some? then
      match ParseType(text[6..RFindChar(text, '>').value])
      case Failure(error) => Failure(error)
      case Success(child) => Success(List(child))
    else if StartsWith(text, MAP) && RFindChar(text, '>').Some? then
      match ParseTypes(Split(text[4..RFindChar(text, '>').value], 0), |text|)
      case Failure(error) => Failure(error)
      case Success(types) => if |types| == 2 then Success(Map(types[0], types[1])) else Failure(WrongArity)
    else if StartsWith(text, STRUCT) && RFindChar(text, '>').Some? then
      match ParseFields(Split(text[7..RFindChar(text, '>').value], 0), |text|)
      case Failure(error) => Failure(error)
      case Success(fields) => Success(Struct(fields))
    else Failure(UnknownType)
  }

  /** The pieces in turn, up to the first that fails. An empty last piece is where the source's scan
      starts on the closing bracket and runs past the end of the text. */
  function ParseTypes(pieces: seq<string>, bound: nat): Result<seq<LogicalType>, Error>
    requires pieces != [] && forall i | 0 <= i < |pieces| :: |pieces[i]| < bound
    decreases bound, 1, |pieces|
  {
    if pieces == [""] then Failure(OutOfRange)
    else if |pieces| == 1 then One(ParseType(pieces[0]))
    else Cons(ParseType(pieces[0]), ParseTypes(pieces[1..], bound))
  }

  function NameField(name: string, ty: Result<LogicalType, Error>): Result<Field, Error> {
    if ty.Failure? then Failure(ty.error) else Success(Field(name, ty.value))
  }

  function ParseField(piece: string): Result<Field, Error>
    decreases |piece|, 3
  {
    match FindChar(piece, ':')
    case None => Failure(UnknownType)
    case Some(sep) => NameField(piece[..sep], ParseType(piece[sep + 1..]))
  }

  function ParseFields(pieces: seq<string>, bound: nat): Result<seq<Field>, Error>
    requires pieces != [] && forall i | 0 <= i < |pieces| :: |pieces[i]| < bound
    decreases bound, 1, |pieces|
  {
    if pieces == [""] then Failure(OutOfRange)
    else if |pieces| == 1 then One(ParseField(pieces[0]))
    else Cons(ParseField(pieces[0]), ParseFields(pieces[1..], bound))
  }

  // ----- printing ----------------------------------------------------------------------------------

  /** `LogicalToIcebergType`: scalars and decimals; anything else is not supported. */
  function LogicalToIcebergType(t: LogicalType): Result<string, Error> {
    match t
    case TinyInt => Success("tinyint")
    case UTinyInt => Success("tinyint")
    case SmallInt => Success("smallint")
    case USmallInt => Success("smallint")
    case Integer => Success("int")
    case UInteger => Success("int")
    case BigInt => Success("long")
    case UBigInt => Success("long")
    case Varchar => Success("string")
    case Double => Success("double")
    case Float => Success("float")
    case Boolean => Success("boolean")
    case Timestamp => Success("timestamp")
    case TimestampTz => Success("timestamptz")
    case Blob => Success("binary")
    case Date => Success("date")
    case Decimal(width, scale) => Success(DECIMAL + Digits(width) + ", " + Digits(scale) + ")")
    case _ => Failure(UnknownType)
  }

  /** The names the REST catalog gives nested types, scalars named by LogicalToIcebergType. */
  function Print(t: LogicalType): string
    decreases t, 1
  {
    match t
    case List(child) => ARRAY + Print(child) + ">"
    case Map(key, value) => MAP + (Print(key) + ("," + Print(value))) + ">"
    case Struct(fields) => STRUCT + PrintFields(fields) + ">"
    case _ => match LogicalToIcebergType(t) { case Success(name) => name case Failure(_) => "" }
  }

  function PrintField(field: Field): string
    decreases field, 2
  {
    field.name + ([':'] + Print(field.ty))
  }

  function PrintFields(fields: seq<Field>): string
    decreases fields, 0
  {
    if fields == [] then ""
    else if |fields| == 1 then PrintField(fields[0])
    else PrintField(fields[0]) + ("," + PrintFields(fields[1..]))
  }

  predicate PlainName(name: string) {
    ',' !in name && ':' !in name && '<' !in name && '>' !in name
  }

  /** Types that have a name: no TIME or UUID, byte-sized decimal parameters, plain field names. */
  predicate Printable(t: LogicalType)
    decreases t
  {
    match t
    case Time => false
    case Uuid => false
    case Decimal(width, scale) => width < 256 && scale < 256
    case List(child) => Printable(child)
    case Map(key, value) => Printable(key) && Printable(value)
    case Struct(fields) => forall f | f in fields :: PlainName(f.name) && Printable(f.ty)
    case _ => true
  }

  /** No struct is empty and no decimal stands directly in a map or struct, where its comma would be cut. */
  predicate Protected(t: LogicalType)
    decreases t
  {
    match t
    case List(child) => Protected(child)
    case Map(key, value) => !key.Decimal? && !value.Decimal? && Protected(key) && Protected(value)
    case Struct(fields) => fields != [] && forall f | f in fields :: !f.ty.Decimal? && Protected(f.ty)
    case _ => true
  }

  /** The type a name stands for: unsigned integers are read back as signed ones. */
  function Signed(t: LogicalType): LogicalType
    decreases t, 1
  {
    match t
    case UTinyInt => TinyInt
    case USmallInt => SmallInt
    case UInteger => Integer
    case UBigInt => BigInt
    case List(child) => List(Signed(child))
    case Map(key, value) => Map(Signed(key), Signed(value))
    case Struct(fields) => Struct(SignedFields(fields))
    case _ => t
  }

  function SignedFields(fields: seq<Field>): seq<Field>
    decreases fields, 0
  {
    if fields == [] then [] else [Field(fields[0].name, Signed(fields[0].ty))] + SignedFields(fields[1..])
  }
}
