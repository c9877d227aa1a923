/** `TypeToLogicalType` as the source runs it: index loops over one string, recursion on substrings. */
module TypeParser {
  import opened Basics
  import opened TypeStrings

  lemma SliceHead(text: string, next: nat, end: nat)
    requires next < end <= |text|
    ensures text[next..end][0] == text[next] && text[next..end][1..] == text[next + 1..end]
  {
  }

  lemma SplitSlice(text: string, cur: nat, next: nat, end: nat, opens: int, depth: int)
    requires cur <= next < end <= |text|
    requires Split(text[cur..end], opens) == Glue(text[cur..next], Split(text[next..end], depth))
    ensures text[next] != ',' || depth > 0 ==>
              Split(text[cur..end], opens) == Glue(text[cur..next + 1], Split(text[next + 1..end], depth + Delta(text[next])))
    ensures text[next] == ',' && depth <= 0 ==>
              Split(text[cur..end], opens) == [text[cur..next]] + Split(text[next + 1..end], depth)
  {
    hide Glue;
    SliceHead(text, next, end);
    var rest := text[next + 1..end];
    if text[next] != ',' || depth > 0 {
      GlueConcat(text[cur..next], [text[next]], Split(rest, depth + Delta(text[next])));
      assert text[cur..next + 1] == text[cur..next] + [text[next]];
    } else {
      GlueEmpty(text[cur..next], Split(rest, depth));
    }
  }

  lemma GlueLast(a: string)
    ensures Glue(a, [""]) == [a] && Split("", 0) == [""]
  {
    ConcatNil(a);
    ConcatNil([a]);
  }

  /** The inner loop of the map and struct branches: the next comma outside nested brackets. It stops
      at the closing bracket and never reads beyond it. */
  method NextSeparator(text: string, cur: nat, typeEnd: nat, opens: int) returns (nextSep: nat, nestedOpens: int)
    requires cur < typeEnd < |text|
    ensures cur <= nextSep <= typeEnd
    ensures nextSep == typeEnd ==> Split(text[cur..typeEnd], opens) == [text[cur..typeEnd]]
    ensures nextSep < typeEnd ==>
              Split(text[cur..typeEnd], opens) == [text[cur..nextSep]] + Split(text[nextSep + 1..typeEnd], nestedOpens)
    ensures nextSep < typeEnd ==> nestedOpens <= 0 && nestedOpens == opens + Net(text[cur..nextSep])
  {
    hide Split, Glue, Net;
    nextSep, nestedOpens := cur, opens;
    GlueNothing(Split(text[cur..typeEnd], opens));
    NetStart(text, cur);
    assert text[cur..cur] == "";
    while text[nextSep] != ',' || nestedOpens > 0
      invariant cur <= nextSep < typeEnd
      invariant Split(text[cur..typeEnd], opens) == Glue(text[cur..nextSep], Split(text[nextSep..typeEnd], nestedOpens))
      invariant nestedOpens == opens + Net(text[cur..nextSep])
      decreases typeEnd - nextSep
    {
      SplitSlice(text, cur, nextSep, typeEnd, opens, nestedOpens);
      NetStep(text, cur, nextSep);
      if text[nextSep] == '<' {
        nestedOpens := nestedOpens + 1;
      } else if text[nextSep] == '>' {
        nestedOpens := nestedOpens - 1;
      }
      nextSep := nextSep + 1;
      if nextSep == typeEnd {
        SplitNothing(nestedOpens);
        assert text[typeEnd..typeEnd] == "";
        GlueLast(text[cur..typeEnd]);
        return;
      }
    }
    SplitSlice(text, cur, nextSep, typeEnd, opens, nestedOpens);
  }

  lemma GlueNothing(pieces: seq<string>)
    requires pieces != []
    ensures Glue("", pieces) == pieces
  {
    ConcatNil(pieces[0]);
  }

  lemma SplitNothing(depth: int)
    ensures Split("", depth) == [""]
  {
  }

  lemma NetStart(text: string, cur: nat)
    requires cur <= |text|
    ensures Net(text[cur..cur]) == 0
  {
  }

  lemma NetStep(text: string, cur: nat, next: nat)
    requires cur <= next < |text|
    ensures Net(text[cur..next + 1]) == Net(text[cur..next]) + Delta(text[next])
  {
    assert text[cur..next + 1] == text[cur..next] + [text[next]];
    NetConcat(text[cur..next], [text[next]]);
    assert Net([text[next]]) == Delta(text[next]) + Net([text[next]][1..]);
  }

  /** The loop of the map branch: parses the pieces of `text[cur..typeEnd]` one by one. */
  method ParseMapTypes(text: string, typeEnd: nat) returns (r: Result<seq<LogicalType>, Error>)
    requires 4 <= typeEnd < |text|
    ensures r == ParseTypes(Split(text[4..typeEnd], 0), |text|)
    decreases |text|, 1
  {
    hide Split, ParseType, Net;
    var keyVal: seq<LogicalType> := [];
    var cur, nestedOpens := 4, 0;
    ghost var whole := ParseTypes(Split(text[4..typeEnd], 0), |text|);
    PrependNothing(whole);
    while true
      invariant 4 <= cur <= typeEnd
      invariant whole == Prepend(keyVal, ParseTypes(Split(text[cur..typeEnd], nestedOpens), |text|))
      decreases typeEnd - cur
    {
      if cur == typeEnd {
        SplitNothing(nestedOpens);
        return Failure(OutOfRange);
      }
      var nextSep, opens := NextSeparator(text, cur, typeEnd, nestedOpens);
      ghost var pieces := Split(text[cur..typeEnd], nestedOpens);
      nestedOpens := opens;
      var childType := TypeToLogicalType(text[cur..nextSep]);
      if nextSep == typeEnd {
        return Prepend(keyVal, One(childType));
      }
      ghost var rest := Split(text[nextSep + 1..typeEnd], nestedOpens);
      ConcatHead([text[cur..nextSep]], rest);
      ConcatNil(rest);
      assert pieces[1..] == rest;
      if childType.Failure? {
        return Failure(childType.error);
      }
      PrependCons(keyVal, childType.value, ParseTypes(rest, |text|));
      keyVal := keyVal + [childType.value];
      cur := nextSep + 1;
    }
  }

  /** The loop of the struct branch, over `name:type` pieces. */
  method ParseStructFields(text: string, typeEnd: nat) returns (r: Result<seq<Field>, Error>)
    requires 7 <= typeEnd < |text|
    ensures r == ParseFields(Split(text[7..typeEnd], 0), |text|)
    decreases |text|, 1
  {
    hide Split, ParseType, Net;
    var children: seq<Field> := [];
    var cur, nestedOpens := 7, 0;
    ghost var whole := ParseFields(Split(text[7..typeEnd], 0), |text|);
    PrependNothing(whole);
    while true
      invariant 7 <= cur <= typeEnd
      invariant whole == Prepend(children, ParseFields(Split(text[cur..typeEnd], nestedOpens), |text|))
      decreases typeEnd - cur
    {
      if cur == typeEnd {
        SplitNothing(nestedOpens);
        return Failure(OutOfRange);
      }
      var nextSep, opens := NextSeparator(text, cur, typeEnd, nestedOpens);
      ghost var pieces := Split(text[cur..typeEnd], nestedOpens);
      nestedOpens := opens;
      var childStr := text[cur..nextSep];
      var typeSep := FindChar(childStr, ':');
      var child;
      match typeSep {
        case None => child := Failure(UnknownType);
        case Some(sep) =>
          var childType := TypeToLogicalType(childStr[sep + 1..]);
          child := NameField(childStr[..sep], childType);
      }
      if nextSep == typeEnd {
        return Prepend(children, One(child));
      }
      ghost var rest := Split(text[nextSep + 1..typeEnd], nestedOpens);
      ConcatHead([childStr], rest);
      ConcatNil(rest);
      assert pieces[1..] == rest;
      if child.Failure? {
        return Failure(child.error);
      }
      PrependCons(children, child.value, ParseFields(rest, |text|));
      children := children + [child.value];
      cur := nextSep + 1;
    }
  }

  method TypeToLogicalType(text: string) returns (r: Result<LogicalType, Error>)
    ensures r == ParseType(text)
    decreases |text|, 2
  {
    hide ScalarOf, ParseTypes, ParseFields, Split, ParseDecimal;
    var scalar := ScalarOf(text);
    if scalar.Some? {
      return Success(scalar.value);
    }
    var typeEnd := RFindChar(text, '>');
    if StartsWith(text, DECIMAL) {
      r := ParseDecimal(text);
    } else if StartsWith(text, ARRAY) && typeEnd.Some? {
      ClosingIsLate(text, ARRAY, typeEnd.value);
      var child := TypeToLogicalType(text[6..typeEnd.value]);
      r := match child { case Failure(error) => Failure(error) case Success(t) => Success(List(t)) };
    } else if StartsWith(text, MAP) && typeEnd.Some? {
      ClosingIsLate(text, MAP, typeEnd.value);
      var types := ParseMapTypes(text, typeEnd.value);
      match types {
        case Failure(error) => r := Failure(error);
        case Success(keyVal) =>
          r := if |keyVal| != 2 then Failure(WrongArity) else Success(Map(keyVal[0], keyVal[1]));
      }
    } else if StartsWith(text, STRUCT) && typeEnd.Some? {
      ClosingIsLate(text, STRUCT, typeEnd.value);
      var fields := ParseStructFields(text, typeEnd.value);
      match fields {
        case Failure(error) => r := Failure(error);
        case Success(children) => r := Success(Struct(children));
      }
    } else {
      r := Failure(UnknownType);
    }
  }

  lemma ClosingIsLate(text: string, prefix: string, typeEnd: nat)
    requires StartsWith(text, prefix) && '>' !in prefix
    requires typeEnd < |text| && text[typeEnd] == '>'
    ensures |prefix| <= typeEnd
  {
    assert forall i | 0 <= i < |prefix| :: text[..|prefix|][i] == text[i];
  }
}
