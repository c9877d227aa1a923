/** Parsing inverts printing of type names, exactly where the splitter does not cut a decimal. */
module TypeNames {
  import opened Basics
  import opened TypeStrings

  // ----- printed types are whole pieces -----------------------------------------------------------

  predicate NoBrackets(s: string) {
    '<' !in s && '>' !in s
  }

  lemma {:induction false} NoBracketsNested(s: string, depth: int)
    requires NoBrackets(s) && (depth >= 1 || ',' !in s)
    ensures Net(s) == 0 && Uncut(s, depth)
  {
    if s != "" {
      NoBracketsNested(s[1..], depth);
    }
  }

  /** A bracketed body is whole when the body, one level down, is balanced and not cut. */
  lemma BracketWhole(name: string, body: string)
    requires NoBrackets(name) && ',' !in name
    requires Net(body) == 0 && Uncut(body, 1)
    ensures Whole(name + "<" + body + ">")
  {
    NoBracketsNested(name, 0);
    UncutConcat(name, "<", 0);
    NetConcat(name, "<");
    UncutConcat(name + "<", body, 0);
    NetConcat(name + "<", body);
    UncutConcat(name + "<" + body, ">", 0);
    NetConcat(name + "<" + body, ">");
  }

  lemma PrefixesAre()
    ensures ARRAY == "array" + "<" && MAP == "map" + "<" && STRUCT == "struct" + "<"
    ensures NoBrackets("array") && NoBrackets("map") && NoBrackets("struct")
    ensures ',' !in "array" && ',' !in "map" && ',' !in "struct"
  {
  }

  lemma JoinNested(a: string, b: string)
    requires Net(a) == 0 && Uncut(a, 1) && Net(b) == 0 && Uncut(b, 1)
    ensures Net(a + ("," + b)) == 0 && Uncut(a + ("," + b), 1)
  {
    UncutConcat(",", b, 1);
    NetConcat(",", b);
    UncutConcat(a, "," + b, 1);
    NetConcat(a, "," + b);
  }

  lemma NamedNested(name: string, printed: string, depth: int)
    requires PlainName(name) && Net(printed) == 0 && Uncut(printed, depth)
    ensures Net(name + ([':'] + printed)) == 0 && Uncut(name + ([':'] + printed), depth)
  {
    NoBracketsNested(name, depth);
    NoBracketsNested(":", depth);
    UncutConcat(":", printed, depth);
    NetConcat(":", printed);
    UncutConcat(name, [':'] + printed, depth);
    NetConcat(name, [':'] + printed);
  }

  lemma DecimalText(width: nat, scale: nat)
    ensures var text := Print(Decimal(width, scale));
            && text == (DECIMAL + Digits(width)) + ("," + (" " + Digits(scale) + ")"))
            && NoBrackets(text)
            && NoBrackets(DECIMAL + Digits(width)) && ',' !in DECIMAL + Digits(width) && ')' !in DECIMAL + Digits(width)
  {
  }

  predicate Scalar(t: LogicalType) {
    !t.Decimal? && !t.List? && !t.Map? && !t.Struct?
  }

  lemma ScalarName(t: LogicalType)
    requires Scalar(t) && Printable(t)
    ensures Print(t) != "" && NoBrackets(Print(t)) && ',' !in Print(t)
    ensures ScalarOf(Print(t)) == Some(Signed(t))
  {
  }

  /** Which texts name a scalar. */
  lemma ScalarNames(text: string)
    ensures ScalarOf(text) == Some(TinyInt) <==> text == "tinyint"
    ensures ScalarOf(text) == Some(SmallInt) <==> text == "smallint"
    ensures ScalarOf(text) == Some(Integer) <==> text == "int"
    ensures ScalarOf(text) == Some(BigInt) <==> text == "bigint" || text == "long"
    ensures ScalarOf(text) == Some(Varchar) <==> text == "string"
    ensures ScalarOf(text) == Some(Double) <==> text == "double"
    ensures ScalarOf(text) == Some(Float) <==> text == "float"
    ensures ScalarOf(text) == Some(Boolean) <==> text == "boolean"
    ensures ScalarOf(text) == Some(Timestamp) <==> text == "timestamp"
    ensures ScalarOf(text) == Some(TimestampTz) <==> text == "timestamptz"
    ensures ScalarOf(text) == Some(Blob) <==> text == "binary"
    ensures ScalarOf(text) == Some(Date) <==> text == "date"
  {
  }

  /** Which types `LogicalToIcebergType` names. */
  lemma NamedTypes(t: LogicalType)
    ensures LogicalToIcebergType(t).Success? <==> !t.Time? && !t.Uuid? && !t.List? && !t.Map? && !t.Struct?
  {
  }

  /** What is no scalar and begins like no other type, or has no closing bracket, is an error. */
  lemma UnknownName(text: string)
    requires ScalarOf(text).None? && !StartsWith(text, "decimal(")
    requires '>' !in text || (!StartsWith(text, "array<") && !StartsWith(text, "map<") && !StartsWith(text, "struct<"))
    ensures ParseType(text).Failure?
  {
    hide ScalarOf, StartsWith, ParseDecimal, Split;
  }

  lemma {:induction false} ParsedCount(pieces: seq<string>, bound: nat)
    requires pieces != [] && forall i | 0 <= i < |pieces| :: |pieces[i]| < bound
    ensures ParseTypes(pieces, bound).Success? ==> |ParseTypes(pieces, bound).value| == |pieces|
    decreases pieces
  {
    hide ParseType;
    if |pieces| > 1 && pieces != [""] {
      ParsedCount(pieces[1..], bound);
    }
  }

  /** A map names two types, no more and no fewer. */
  lemma MapNeedsTwo(pieces: seq<string>)
    requires pieces != [] && |pieces| != 2 && forall i | 0 <= i < |pieces| :: Whole(pieces[i])
    ensures ParseType(MAP + Join(pieces) + ">").Failure?
  {
    hide ParseTypes, ParseType, Whole, Join, Split;
    SplitJoin(pieces);
    ParseMap(Join(pieces));
    ParsedCount(Split(Join(pieces), 0), |MAP + Join(pieces) + ">"|);
  }

  lemma {:induction false} ParsedFields(pieces: seq<string>, bound: nat)
    requires pieces != [] && forall i | 0 <= i < |pieces| :: |pieces[i]| < bound
    requires ParseFields(pieces, bound).Success?
    ensures var fields := ParseFields(pieces, bound).value;
            && |fields| == |pieces|
            && forall i | 0 <= i < |pieces| ::
                 fields[i].name < pieces[i] && ':' !in fields[i].name && pieces[i][|fields[i].name|] == ':'
    decreases pieces
  {
    hide ParseType, FindChar;
    if |pieces| > 1 && pieces != [""] {
      ParsedFields(pieces[1..], bound);
    }
  }

  /** Every field of a struct has a colon, and what is before its first colon is the field's name. */
  lemma StructNeedsColons(pieces: seq<string>)
    requires pieces != [] && forall i | 0 <= i < |pieces| :: Whole(pieces[i])
    ensures var r := ParseType(STRUCT + Join(pieces) + ">");
            r.Success? ==>
              && r.value.Struct? && |r.value.fields| == |pieces|
              && forall i | 0 <= i < |pieces| ::
                   var name := r.value.fields[i].name;
                   name < pieces[i] && ':' !in name && pieces[i][|name|] == ':'
  {
    hide ParseFields, ParseType, Whole, Join, Split;
    var text := STRUCT + Join(pieces) + ">";
    SplitJoin(pieces);
    ParseStruct(Join(pieces));
    if ParseFields(Split(Join(pieces), 0), |text|).Success? {
      ParsedFields(Split(Join(pieces), 0), |text|);
    }
  }

  /** A printed type is balanced and, one level down, never cut; outside brackets only a decimal is cut. */
  lemma {:induction false} PrintNested(t: LogicalType)
    requires Printable(t)
    ensures Net(Print(t)) == 0 && Uncut(Print(t), 1) && Print(t) != ""
    ensures !t.Decimal? ==> Whole(Print(t))
    decreases t, 1
  {
    hide Net, Uncut;
    PrefixesAre();
    match t {
      case Decimal(width, scale) =>
        DecimalText(width, scale);
        NoBracketsNested(Print(t), 1);
      case List(child) =>
        PrintNested(child);
        BracketWhole("array", Print(child));
        UncutDeeper(Print(t), 0, 1);
      case Map(key, value) =>
        PrintNested(key);
        PrintNested(value);
        JoinNested(Print(key), Print(value));
        BracketWhole("map", Print(key) + ("," + Print(value)));
        UncutDeeper(Print(t), 0, 1);
      case Struct(fields) =>
        FieldsNested(fields);
        BracketWhole("struct", PrintFields(fields));
        UncutDeeper(Print(t), 0, 1);
      case _ =>
        ScalarName(t);
        NoBracketsNested(Print(t), 0);
        NoBracketsNested(Print(t), 1);
    }
  }

  lemma {:induction false} FieldsNested(fields: seq<Field>)
    requires forall f | f in fields :: PlainName(f.name) && Printable(f.ty)
    ensures Net(PrintFields(fields)) == 0 && Uncut(PrintFields(fields), 1)
    decreases fields, 0
  {
    if fields != [] {
      PrintNested(fields[0].ty);
      NamedNested(fields[0].name, Print(fields[0].ty), 1);
      if |fields| > 1 {
        FieldsNested(fields[1..]);
        JoinNested(PrintField(fields[0]), PrintFields(fields[1..]));
      }
    }
  }

  // ----- the round trip ----------------------------------------------------------------------------

  lemma {:induction false} RFindClosing(s: string)
    ensures RFindChar(s + ">", '>') == Some(|s|)
  {
  }

  lemma BracketBody(prefix: string, body: string)
    ensures RFindChar(prefix + body + ">", '>') == Some(|prefix| + |body|)
    ensures (prefix + body + ">")[|prefix|..|prefix| + |body|] == body
    ensures StartsWith(prefix + body + ">", prefix)
  {
    RFindClosing(prefix + body);
  }

  lemma ParseList(body: string)
    ensures ParseType(ARRAY + body + ">") ==
            match ParseType(body) { case Failure(error) => Failure(error) case Success(child) => Success(List(child)) }
  {
    hide ScalarOf, StartsWith, RFindChar;
    BracketBody(ARRAY, body);
    ArrayText(ARRAY + body + ">");
  }

  lemma ArrayText(text: string)
    requires StartsWith(text, ARRAY)
    ensures ScalarOf(text).None? && !StartsWith(text, DECIMAL)
  {
    assert text[0] == 'a';
  }

  lemma MapText(text: string)
    requires StartsWith(text, MAP)
    ensures ScalarOf(text).None? && !StartsWith(text, DECIMAL) && !StartsWith(text, ARRAY)
  {
    assert text[0] == 'm';
  }

  lemma StructText(text: string)
    requires StartsWith(text, STRUCT)
    ensures ScalarOf(text).None? && !StartsWith(text, DECIMAL) && !StartsWith(text, ARRAY) && !StartsWith(text, MAP)
  {
    assert text[0] == 's' && text[3] == 'u';
  }

  lemma ParseMap(body: string)
    ensures var text := MAP + body + ">";
            ParseType(text) ==
            match ParseTypes(Split(body, 0), |text|)
            case Failure(error) => Failure(error)
            case Success(types) => if |types| == 2 then Success(Map(types[0], types[1])) else Failure(WrongArity)
  {
    hide ScalarOf, StartsWith, Split, ParseTypes, RFindChar;
    BracketBody(MAP, body);
    MapText(MAP + body + ">");
  }

  lemma ParseStruct(body: string)
    ensures var text := STRUCT + body + ">";
            ParseType(text) ==
            match ParseFields(Split(body, 0), |text|)
            case Failure(error) => Failure(error)
            case Success(fields) => Success(Struct(fields))
  {
    hide ScalarOf, StartsWith, Split, ParseFields, RFindChar;
    BracketBody(STRUCT, body);
    StructText(STRUCT + body + ">");
  }

  lemma MiddleSlice(a: string, b: string, c: string)
    ensures (a + (b + c))[|a|..|a| + |b|] == b
  {
  }

  lemma CommaMark(head: string, tail: string)
    requires ',' !in head
    ensures FindChar(head + ("," + (tail + ")")), ',') == Some(|head|)
  {
    FindCharIs(head, ',', tail + ")");
  }

  lemma ClosingMark(whole: string, head: string, tail: string)
    requires whole == head + ("," + (tail + ")")) && ')' !in head && ')' !in tail
    ensures FindChar(whole, ')') == Some(|head| + 1 + |tail|)
  {
    JoinedAt(head, tail);
    NotInJoined(head, tail);
    MarkAtEnd(whole, head + "," + tail, |head| + 1 + |tail|);
  }

  lemma NotInJoined(head: string, tail: string)
    requires ')' !in head && ')' !in tail
    ensures ')' !in head + "," + tail
  {
  }

  lemma JoinedAt(head: string, tail: string)
    ensures head + ("," + (tail + ")")) == (head + "," + tail) + ")"
  {
    ConcatAssoc(head + ",", tail, ")");
    ConcatAssoc(head, ",", tail + ")");
  }

  lemma MarkAtEnd(whole: string, text: string, length: nat)
    requires whole == text + ")" && ')' !in text && length == |text|
    ensures FindChar(whole, ')') == Some(length)
  {
    FindCharIs(text, ')', "");
    ConcatNil([')']);
  }

  lemma DecimalMarks(head: string, tail: string)
    requires ',' !in head && ')' !in head && ')' !in tail
    ensures var text := head + ("," + (tail + ")"));
            && FindChar(text, ',') == Some(|head|)
            && FindChar(text, ')') == Some(|head| + 1 + |tail|)
            && text[|head| + 1..|head| + 1 + |tail|] == tail
  {
    hide FindChar;
    CommaMark(head, tail);
    ClosingMark(head + ("," + (tail + ")")), head, tail);
    ConcatAssoc(head, ",", tail + ")");
    MiddleSlice(head + ",", tail, ")");
  }

  lemma DecimalPrefixed(text: string)
    requires StartsWith(text, DECIMAL)
    ensures ScalarOf(text).None?
  {
    assert text[1] == 'e';
  }

  lemma ParsePrintedDecimal(width: nat, scale: nat)
    requires width < 256 && scale < 256
    ensures ParseType(Print(Decimal(width, scale))) == Success(Decimal(width, scale))
  {
    hide FindChar, Digits, CastUInt8, ScalarOf;
    var text := Print(Decimal(width, scale));
    var head, tail := DECIMAL + Digits(width), " " + Digits(scale);
    DecimalText(width, scale);
    DecimalMarks(head, tail);
    assert text[8..|head|] == Digits(width);
    CastDigits(width);
    CastDigits(scale);
    DecimalPrefixed(text);
  }

  /** What the splitter leaves of a bare decimal is not a type. */
  lemma CutDecimalFails(width: nat)
    ensures ParseType(DECIMAL + Digits(width)).Failure?
  {
    hide Digits, ScalarOf;
    DecimalText(width, 0);
    DecimalPrefixed(DECIMAL + Digits(width));
  }

  /** The pieces of `printed` followed by more text: a decimal loses its scale, anything else is one piece. */
  lemma PieceOf(t: LogicalType, rest: string)
    requires Printable(t)
    ensures var pieces := Split(Print(t) + ("," + rest), 0);
            && |pieces| > 1
            && (!t.Decimal? ==> pieces == [Print(t)] + Split(rest, 0))
            && (t.Decimal? ==> pieces[0] == DECIMAL + Digits(t.width))
  {
    PrintNested(t);
    if t.Decimal? {
      var head, tail := DECIMAL + Digits(t.width), " " + Digits(t.scale) + ")";
      DecimalText(t.width, t.scale);
      NoBracketsNested(head, 0);
      ConcatAssoc(head, "," + tail, "," + rest);
      ConcatAssoc(",", tail, "," + rest);
      SplitAtComma(head, tail + ("," + rest));
    } else {
      SplitAtComma(Print(t), rest);
    }
  }

  lemma LastPieceOf(t: LogicalType)
    requires Printable(t)
    ensures var pieces := Split(Print(t), 0);
            && (!t.Decimal? ==> pieces == [Print(t)] && pieces != [""])
            && (t.Decimal? ==> |pieces| > 1 && pieces[0] == DECIMAL + Digits(t.width))
  {
    PrintNested(t);
    if t.Decimal? {
      DecimalText(t.width, t.scale);
      NoBracketsNested(DECIMAL + Digits(t.width), 0);
      SplitAtComma(DECIMAL + Digits(t.width), " " + Digits(t.scale) + ")");
    } else {
      SplitWhole(Print(t));
    }
  }

  /** Parsing inverts printing, up to the sign of integers, exactly for the protected types. For an empty
      struct the failure is a convention of this model: the source scans past the end of the text. */
  lemma {:induction false} ParsePrint(t: LogicalType)
    requires Printable(t)
    ensures if Protected(t) then ParseType(Print(t)) == Success(Signed(t)) else ParseType(Print(t)).Failure?
    decreases t, 1
  {
    match t {
      case Decimal(width, scale) => ParsePrintedDecimal(width, scale);
      case List(child) =>
        ParsePrint(child);
        ParseList(Print(child));
      case Map(key, value) =>
        ParseMap(Print(key) + ("," + Print(value)));
        PieceOf(key, Print(value));
        LastPieceOf(value);
        ParsePrint(key);
        ParsePrint(value);
        ParsePair(key, value, |Print(t)|);
      case Struct(fields) =>
        ParseStruct(PrintFields(fields));
        if fields != [] {
          FieldsParse(fields, |Print(t)|);
        }
      case _ => ScalarName(t);
    }
  }

  lemma ParsePair(key: LogicalType, value: LogicalType, bound: nat)
    requires Printable(key) && Printable(value) && |Print(key) + ("," + Print(value))| < bound
    requires if Protected(key) then ParseType(Print(key)) == Success(Signed(key)) else ParseType(Print(key)).Failure?
    requires if Protected(value) then ParseType(Print(value)) == Success(Signed(value)) else ParseType(Print(value)).Failure?
    ensures var r := ParseTypes(Split(Print(key) + ("," + Print(value)), 0), bound);
            if Protected(Map(key, value)) then r == Success([Signed(key), Signed(value)]) else r.Failure?
  {
    hide Split, Print, ParseType, Signed, Digits;
    var pieces := Split(Print(key) + ("," + Print(value)), 0);
    PieceOf(key, Print(value));
    if key.Decimal? {
      CutDecimalFails(key.width);
    } else {
      var tail := Split(Print(value), 0);
      assert pieces[1..] == tail;
      assert ParseTypes(pieces, bound) == Cons(ParseType(Print(key)), ParseTypes(tail, bound));
      LastPieceOf(value);
      if value.Decimal? {
        CutDecimalFails(value.width);
      } else {
        assert ParseTypes(tail, bound) == One(ParseType(Print(value)));
        assert [Signed(key)] + [Signed(value)] == [Signed(key), Signed(value)];
      }
    }
  }

  // ----- struct fields -----------------------------------------------------------------------------

  lemma ParseFieldText(name: string, text: string)
    requires PlainName(name)
    ensures ParseField(name + ([':'] + text)) == NameField(name, ParseType(text))
  {
    hide ParseType;
    var piece := name + ([':'] + text);
    FindCharIs(name, ':', text);
    assert piece[..|name|] == name && piece[|name| + 1..] == text;
  }

  /** A decimal field is cut after its precision. */
  lemma DecimalFieldText(field: Field)
    requires PlainName(field.name) && field.ty.Decimal?
    ensures var head := field.name + ([':'] + (DECIMAL + Digits(field.ty.width)));
            && Whole(head)
            && PrintField(field) == head + ("," + (" " + Digits(field.ty.scale) + ")"))
  {
    var text, tail := DECIMAL + Digits(field.ty.width), " " + Digits(field.ty.scale) + ")";
    DecimalText(field.ty.width, field.ty.scale);
    NoBracketsNested(text, 0);
    NamedNested(field.name, text, 0);
    ConcatAssoc([':'], text, "," + tail);
    ConcatAssoc(field.name, [':'] + text, "," + tail);
  }

  lemma FieldWhole(field: Field)
    requires PlainName(field.name) && Printable(field.ty) && !field.ty.Decimal?
    ensures Whole(PrintField(field)) && PrintField(field) != ""
  {
    hide Net, Uncut, Print;
    PrintNested(field.ty);
    NamedNested(field.name, Print(field.ty), 0);
  }

  lemma CutDecimalFieldFails(field: Field, pieces: seq<string>, bound: nat)
    requires PlainName(field.name) && field.ty.Decimal?
    requires |pieces| > 1 && forall i | 0 <= i < |pieces| :: |pieces[i]| < bound
    requires pieces[0] == field.name + ([':'] + (DECIMAL + Digits(field.ty.width)))
    ensures ParseFields(pieces, bound).Failure?
  {
    hide ParseType, ParseField, Digits;
    ParseFieldText(field.name, DECIMAL + Digits(field.ty.width));
    CutDecimalFails(field.ty.width);
  }

  lemma {:induction false} FieldsParse(fields: seq<Field>, bound: nat)
    requires fields != [] && |PrintFields(fields)| < bound
    requires forall f | f in fields :: PlainName(f.name) && Printable(f.ty)
    ensures var r := ParseFields(Split(PrintFields(fields), 0), bound);
            if Protected(Struct(fields)) then r == Success(SignedFields(fields)) else r.Failure?
    decreases fields, 0
  {
    hide Split, PrintField, Print, Printable, ParseField, ParseType, Digits, Whole, Signed;
    var first, rest := fields[0], fields[1..];
    assert first in fields;
    ParsePrint(first.ty);
    if first.ty.Decimal? {
      DecimalFirst(fields, bound);
    } else {
      FieldWhole(first);
      FieldText(first);
      ParseFieldText(first.name, Print(first.ty));
      if rest == [] {
        SplitWhole(PrintField(first));
        assert fields == [first];
        assert SignedFields(fields) == [Field(first.name, Signed(first.ty))];
      } else {
        FieldsParse(rest, bound);
        SplitAtComma(PrintField(first), PrintFields(rest));
        var pieces := Split(PrintFields(fields), 0);
        assert pieces[1..] == Split(PrintFields(rest), 0);
        ProtectedHead(fields);
      }
    }
  }

  lemma FieldText(field: Field)
    ensures PrintField(field) == field.name + ([':'] + Print(field.ty))
  {
  }

  lemma ProtectedHead(fields: seq<Field>)
    requires |fields| > 1
    ensures Protected(Struct(fields)) <==>
            !fields[0].ty.Decimal? && Protected(fields[0].ty) && Protected(Struct(fields[1..]))
  {
    assert fields == [fields[0]] + fields[1..];
  }

  lemma DecimalFirst(fields: seq<Field>, bound: nat)
    requires fields != [] && |PrintFields(fields)| < bound
    requires PlainName(fields[0].name) && fields[0].ty.Decimal?
    ensures ParseFields(Split(PrintFields(fields), 0), bound).Failure?
  {
    hide Split, PrintField, ParseFields, Whole, Digits;
    var first := fields[0];
    var head, tail := first.name + ([':'] + (DECIMAL + Digits(first.ty.width))), " " + Digits(first.ty.scale) + ")";
    DecimalFieldText(first);
    if |fields| == 1 {
      SplitAtComma(head, tail);
    } else {
      ConcatAssoc(head, "," + tail, "," + PrintFields(fields[1..]));
      ConcatAssoc(",", tail, "," + PrintFields(fields[1..]));
      SplitAtComma(head, tail + ("," + PrintFields(fields[1..])));
    }
    CutDecimalFieldFails(first, Split(PrintFields(fields), 0), bound);
  }
}
