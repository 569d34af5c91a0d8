/**
 The SQL dump of a result set, and a reader of standard SQL literals that undoes it.
 */
module SqlDump {
  import opened Options
  import opened DecimalText

  /**
   A cell of the result. `Date` is a date or datetime with its text; `Other` is any further value
   (decimals, floats, booleans, bytes) with what `str` makes of it.
   */
  datatype Value = Null | Str(s: string) | Date(text: string) | Int(n: int) | Other(text: string)

  type Row = seq<Value>

  /** What a literal denotes: a date literal is a character string, anything unquoted but NULL a bare token. */
  datatype Literal = LNull | LStr(s: string) | LInt(n: int) | LBare(text: string)

  // ---- Printing ------------------------------------------------------------------------------------

  /** `s.replace("'", "''")`. */
  function Doubled(s: string): string {
    if s == "" then "" else (if s[0] == '\'' then "''" else [s[0]]) + Doubled(s[1..])
  }

  function Quoted(s: string): string {
    "'" + Doubled(s) + "'"
  }

  function Printed(v: Value): string {
    match v
    case Str(s) => Quoted(s)
    case Date(t) => Quoted(t)
    case Null => "NULL"
    case Int(n) => IntText(n)
    case Other(t) => t
  }

  function Joined(parts: seq<string>): string {
    if parts == [] then ""
    else if |parts| == 1 then parts[0]
    else parts[0] + ", " + Joined(parts[1..])
  }

  /** The printed values, joined by a comma and a space. */
  function Values(row: Row): string {
    if row == [] then ""
    else if |row| == 1 then Printed(row[0])
    else Printed(row[0]) + ", " + Values(row[1..])
  }

  function Header(columns: seq<string>): string {
    if columns == [] then "" else "INSERT INTO your_table_name (" + Joined(columns) + ") VALUES "
  }

  function Line(header: string, row: Row): string {
    header + "(" + Values(row) + ");\n"
  }

  function Dump(header: string, rows: seq<Row>): string {
    if rows == [] then "" else Line(header, rows[0]) + Dump(header, rows[1..])
  }

  lemma {:induction false} DumpExtends(header: string, rows: seq<Row>, row: Row)
    ensures Dump(header, rows + [row]) == Dump(header, rows) + Line(header, row)
  {
    if rows == [] {
      assert rows + [row] == [row] && [row][1..] == [];
    } else {
      assert (rows + [row])[0] == rows[0] && (rows + [row])[1..] == rows[1..] + [row];
      DumpExtends(header, rows[1..], row);
    }
  }

  lemma AppendRow(header: string, file: string, rows: seq<Row>, i: nat)
    requires i < |rows| && file == Dump(header, rows[..i])
    ensures file + header + ("(" + Values(rows[i]) + ");\n") == Dump(header, rows[..i + 1])
    ensures header == "" ==> file + header == file
  {
    DumpExtends(header, rows[..i], rows[i]);
    assert rows[..i + 1] == rows[..i] + [rows[i]];
    WriteInTwo(file, header, Values(rows[i]));
  }

  lemma WriteInTwo(file: string, header: string, values: string)
    ensures file + header + ("(" + values + ");\n") == file + (header + "(" + values + ");\n")
    ensures header == "" ==> file + header == file
  {
  }

  /** The file `save_sql` writes, row by row. */
  method SaveSql(rows: seq<Row>, columns: seq<string>) returns (file: string)
    ensures file == Dump(Header(columns), rows)
  {
    file := "";
    ghost var header := Header(columns);
    for i := 0 to |rows|
      invariant file == Dump(header, rows[..i])
    {
      AppendRow(header, file, rows, i);
      if columns != [] {
        file := file + ("INSERT INTO your_table_name (" + Joined(columns) + ") VALUES ");
      }
      var values := Values(rows[i]);
      file := file + ("(" + values + ");\n");
    }
    assert rows[..|rows|] == rows;
  }

  // ---- Reading (section 5.3 of ISO/IEC 9075-2: by the standard a doubled quote is the only escape) -------

  datatype Parsed<T> = Fail | Ok(value: T, rest: string)

  /** The standard's quoting, and that of readers that also let a backslash take the next character literally. */
  datatype Quoting = Standard | Backslash

  /** The rest of a character string literal, after its opening quote. */
  function ParseString(s: string, q: Quoting): (r: Parsed<string>)
    ensures r.Ok? ==> |r.rest| < |s|
  {
    if s == "" then Fail
    else if s[0] == '\'' then
      if |s| > 1 && s[1] == '\'' then
        match ParseString(s[2..], q)
        case Fail => Fail
        case Ok(v, rest) => Ok(['\''] + v, rest)
      else Ok("", s[1..])
    else if q == Backslash && s[0] == '\\' then
      if |s| == 1 then Fail
      else
        match ParseString(s[2..], q)
        case Fail => Fail
        case Ok(v, rest) => Ok([s[1]] + v, rest)
    else
      match ParseString(s[1..], q)
      case Fail => Fail
      case Ok(v, rest) => Ok([s[0]] + v, rest)
  }

  predicate EndsToken(c: char) {
    c == ',' || c == ')' || c == '\'' || c == '(' || c == '\n'
  }

  function TokenLength(s: string): (n: nat)
    ensures n <= |s|
  {
    if s == "" || EndsToken(s[0]) then 0 else 1 + TokenLength(s[1..])
  }

  /** An unquoted token: NULL, a canonical integer, or something else. */
  function Classify(token: string): Literal {
    if token == "NULL" then LNull
    else
      match ParseInt(token)
      case Some(n) => if IntText(n) == token then LInt(n) else LBare(token)
      case None => LBare(token)
  }

  function ParseLiteral(s: string, q: Quoting): (r: Parsed<Literal>)
    ensures r.Ok? ==> |r.rest| < |s|
  {
    if s != "" && s[0] == '\'' then
      match ParseString(s[1..], q)
      case Fail => Fail
      case Ok(v, rest) => Ok(LStr(v), rest)
    else
      var n := TokenLength(s);
      if n == 0 then Fail else Ok(Classify(s[..n]), s[n..])
  }

  /** One or more literals separated by a comma and a space, and the closing parenthesis. */
  function ParseLiterals(s: string, q: Quoting): (r: Parsed<seq<Literal>>)
    ensures r.Ok? ==> |r.rest| < |s|
    decreases |s|
  {
    match ParseLiteral(s, q)
    case Fail => Fail
    case Ok(v, rest) =>
      if rest != "" && rest[0] == ')' then Ok([v], rest[1..])
      else if |rest| > 1 && rest[..2] == ", " then
        match ParseLiterals(rest[2..], q)
        case Fail => Fail
        case Ok(vs, rest') => Ok([v] + vs, rest')
      else Fail
  }

  function Expect(s: string, p: string): Parsed<()> {
    if |p| <= |s| && s[..|p|] == p then Ok((), s[|p|..]) else Fail
  }

  /** What stands between the parentheses, and the closing one. */
  function ParseBody(t: string, q: Quoting): (r: Parsed<seq<Literal>>)
    ensures r.Ok? ==> |r.rest| < |t|
  {
    if t != "" && t[0] == ')' then Ok([], t[1..]) else ParseLiterals(t, q)
  }

  function ParseRow(header: string, s: string, q: Quoting): (r: Parsed<seq<Literal>>)
    ensures r.Ok? ==> |r.rest| < |s|
  {
    match Expect(s, header + "(")
    case Fail => Fail
    case Ok(_, t) =>
      match ParseBody(t, q)
      case Fail => Fail
      case Ok(vs, u) =>
        match Expect(u, ";\n")
        case Fail => Fail
        case Ok(_, rest) => Ok(vs, rest)
  }

  /** The rows of a dump whose header is known; `None` if the text is no such dump. */
  function ParseDump(header: string, s: string, q: Quoting): Option<seq<seq<Literal>>>
    decreases |s|
  {
    if s == "" then Some([])
    else
      match ParseRow(header, s, q)
      case Fail => None
      case Ok(row, rest) =>
        match ParseDump(header, rest, q)
        case None => None
        case Some(rows) => Some([row] + rows)
  }

  // ---- Reading undoes printing -----------------------------------------------------------------------

  /** What reading is expected to recover. */
  function Denoted(v: Value): Literal {
    match v
    case Null => LNull
    case Str(s) => LStr(s)
    case Date(t) => LStr(t)
    case Int(n) => LInt(n)
    case Other(t) => LBare(t)
  }

  function DenotedRow(row: Row): seq<Literal> {
    if row == [] then [] else [Denoted(row[0])] + DenotedRow(row[1..])
  }

  function DenotedRows(rows: seq<Row>): seq<seq<Literal>> {
    if rows == [] then [] else [DenotedRow(rows[0])] + DenotedRows(rows[1..])
  }

  /** Strings, dates, integers and nulls always; other values when their text is one plain token, as a decimal's is. */
  predicate IsReadable(v: Value) {
    v.Other? ==>
      v.text != "" && Classify(v.text) == LBare(v.text) && forall i :: 0 <= i < |v.text| ==> !EndsToken(v.text[i])
  }

  /** A reader of this quoting takes the value's text for what it is. */
  predicate Survives(v: Value, q: Quoting) {
    q == Standard || match v case Str(s) => '\\' !in s case Date(t) => '\\' !in t case _ => true
  }

  predicate Follows(rest: string) {
    rest != "" && (rest[0] == ',' || rest[0] == ')')
  }

  lemma {:induction false} ParseStringOfDoubled(v: string, rest: string, q: Quoting)
    requires rest == "" || rest[0] != '\''
    requires q == Standard || '\\' !in v
    ensures ParseString(Doubled(v) + "'" + rest, q) == Ok(v, rest)
  {
    var s := Doubled(v) + "'" + rest;
    if v == "" {
      assert s == "'" + rest && s[1..] == rest;
    } else {
      var t := Doubled(v[1..]) + "'" + rest;
      ParseStringOfDoubled(v[1..], rest, q);
      assert v == [v[0]] + v[1..];
      if v[0] == '\'' {
        assert s == "''" + t && s[2..] == t;
      } else {
        assert v[0] in v;
        assert s == [v[0]] + t && s[1..] == t;
      }
    }
  }

  lemma {:induction false} TokenLengthIs(t: string, rest: string)
    requires forall i :: 0 <= i < |t| ==> !EndsToken(t[i])
    requires rest == "" || EndsToken(rest[0])
    ensures TokenLength(t + rest) == |t|
  {
    if t == "" {
      assert t + rest == rest;
    } else {
      assert (t + rest)[0] == t[0] && (t + rest)[1..] == t[1..] + rest;
      TokenLengthIs(t[1..], rest);
    }
  }

  lemma TokenIsRead(t: string, rest: string, q: Quoting)
    requires t != "" && Follows(rest)
    requires forall i :: 0 <= i < |t| ==> !EndsToken(t[i])
    ensures ParseLiteral(t + rest, q) == Ok(Classify(t), rest)
  {
    TokenLengthIs(t, rest);
    assert (t + rest)[0] == t[0] && (t + rest)[..|t|] == t && (t + rest)[|t|..] == rest;
  }

  lemma IntIsRead(n: int, rest: string, q: Quoting)
    requires Follows(rest)
    ensures ParseLiteral(IntText(n) + rest, q) == Ok(LInt(n), rest)
  {
    var t := IntText(n);
    IntTextShape(n);
    ParseIntOfIntText(n);
    assert t[0] != "NULL"[0];
    TokenIsRead(t, rest, q);
  }

  lemma StringIsRead(s: string, rest: string, q: Quoting)
    requires Follows(rest) && (q == Standard || '\\' !in s)
    ensures ParseLiteral(Quoted(s) + rest, q) == Ok(LStr(s), rest)
  {
    var t := Quoted(s) + rest;
    ParseStringOfDoubled(s, rest, q);
    assert t[0] == '\'' && t[1..] == Doubled(s) + "'" + rest;
  }

  lemma LiteralIsRead(v: Value, rest: string, q: Quoting)
    requires IsReadable(v) && Survives(v, q) && Follows(rest)
    ensures ParseLiteral(Printed(v) + rest, q) == Ok(Denoted(v), rest)
  {
    match v
    case Str(s) => StringIsRead(s, rest, q);
    case Date(t) => StringIsRead(t, rest, q);
    case Null => TokenIsRead("NULL", rest, q);
    case Int(n) => IntIsRead(n, rest, q);
    case Other(t) => TokenIsRead(t, rest, q);
  }

  lemma OneMoreLiteral(v: Value, others: string, q: Quoting)
    requires IsReadable(v) && Survives(v, q)
    ensures ParseLiterals(Printed(v) + (", " + others), q)
         == match ParseLiterals(others, q)
            case Fail => Fail
            case Ok(vs, rest) => Ok([Denoted(v)] + vs, rest)
  {
    var tail := ", " + others;
    LiteralIsRead(v, tail, q);
    assert tail[..2] == ", " && tail[2..] == others;
  }

  lemma LastLiteral(v: Value, rest: string, q: Quoting)
    requires IsReadable(v) && Survives(v, q)
    ensures ParseLiterals(Printed(v) + (")" + rest), q) == Ok([Denoted(v)], rest)
  {
    LiteralIsRead(v, ")" + rest, q);
    assert (")" + rest)[1..] == rest;
  }

  lemma OnlyLiteral(row: Row, v: Value, rest: string, q: Quoting)
    requires |row| == 1 && row[0] == v && IsReadable(v) && Survives(v, q)
    ensures ParseLiterals(Values(row) + ")" + rest, q) == Ok(DenotedRow(row), rest)
  {
    LastLiteral(v, rest, q);
    assert Values(row) == Printed(v);
    assert row[1..] == [] && DenotedRow(row) == [Denoted(v)];
    Regroup(Printed(v), ")", rest);
  }

  lemma Regroup(a: string, b: string, c: string)
    ensures a + b + c == a + (b + c)
  {
  }

  lemma PrependValue(v: Value, row: Row, rest: string)
    requires row != []
    ensures Values([v] + row) + ")" + rest == Printed(v) + (", " + (Values(row) + ")" + rest))
  {
    assert ([v] + row)[1..] == row;
  }

  lemma {:induction false} LiteralsAreRead(row: Row, rest: string, q: Quoting)
    requires row != [] && forall i :: 0 <= i < |row| ==> IsReadable(row[i]) && Survives(row[i], q)
    ensures ParseLiterals(Values(row) + ")" + rest, q) == Ok(DenotedRow(row), rest)
  {
    var v, others := row[0], row[1..];
    assert row == [v] + others;
    if others == [] {
      OnlyLiteral(row, v, rest, q);
    } else {
      LiteralsAreRead(others, rest, q);
      OneMoreLiteral(v, Values(others) + ")" + rest, q);
      PrependValue(v, others, rest);
    }
  }

  lemma ExpectFinds(p: string, rest: string)
    ensures Expect(p + rest, p) == Ok((), rest)
  {
    assert (p + rest)[..|p|] == p && (p + rest)[|p|..] == rest;
  }

  lemma FirstOfPrinted(v: Value, rest: string)
    requires IsReadable(v) && Follows(rest)
    ensures Printed(v) != "" && Printed(v)[0] != ')'
  {
    match v
    case Int(n) => IntTextShape(n);
    case _ =>
  }

  lemma BodyIsRead(row: Row, tail: string, q: Quoting)
    requires forall i :: 0 <= i < |row| ==> IsReadable(row[i]) && Survives(row[i], q)
    ensures ParseBody(Values(row) + ")" + tail, q) == Ok(DenotedRow(row), tail)
  {
    var body := Values(row) + ")" + tail;
    if row == [] {
      assert body[0] == ')' && body[1..] == tail;
    } else {
      LiteralsAreRead(row, tail, q);
      FirstOfPrinted(row[0], ")");
      assert Values(row)[0] == Printed(row[0])[0];
      assert body[0] == Values(row)[0];
    }
  }

  lemma RowIsRead(header: string, row: Row, rest: string, q: Quoting)
    requires forall i :: 0 <= i < |row| ==> IsReadable(row[i]) && Survives(row[i], q)
    ensures ParseRow(header, Line(header, row) + rest, q) == Ok(DenotedRow(row), rest)
  {
    var tail := ";\n" + rest;
    var body := Values(row) + ")" + tail;
    LineSplit(header, Values(row), rest);
    ExpectFinds(header + "(", body);
    BodyIsRead(row, tail, q);
    ExpectFinds(";\n", rest);
  }

  lemma LineSplit(header: string, values: string, rest: string)
    ensures header + "(" + values + ");\n" + rest == (header + "(") + (values + ")" + (";\n" + rest))
  {
  }

  /**
   Reading a dump recovers every row, whatever the strings contain: quotes, commas, parentheses,
   even the text that ends a row.
   */
  lemma {:induction false} DumpIsRead(header: string, rows: seq<Row>, q: Quoting)
    requires forall k, i :: 0 <= k < |rows| && 0 <= i < |rows[k]| ==> IsReadable(rows[k][i])
    requires forall k, i :: 0 <= k < |rows| && 0 <= i < |rows[k]| ==> Survives(rows[k][i], q)
    ensures ParseDump(header, Dump(header, rows), q) == Some(DenotedRows(rows))
  {
    if rows != [] {
      RowIsRead(header, rows[0], Dump(header, rows[1..]), q);
      DumpIsRead(header, rows[1..], q);
      assert Line(header, rows[0]) != "";
    }
  }

  /** Two results that print alike denote the same rows. */
  lemma DumpIsInjective(header: string, a: seq<Row>, b: seq<Row>)
    requires forall k, i :: 0 <= k < |a| && 0 <= i < |a[k]| ==> IsReadable(a[k][i])
    requires forall k, i :: 0 <= k < |b| && 0 <= i < |b[k]| ==> IsReadable(b[k][i])
    requires Dump(header, a) == Dump(header, b)
    ensures DenotedRows(a) == DenotedRows(b)
  {
    DumpIsRead(header, a, Standard);
    DumpIsRead(header, b, Standard);
  }

  // ---- The header names the columns in the order of the values ----------------------------------------

  /** Column names, as the unquoted tokens they are written as. */
  function Tokens(columns: seq<string>): (row: Row)
    ensures |row| == |columns| && forall i :: 0 <= i < |columns| ==> row[i] == Other(columns[i])
  {
    seq(|columns|, i requires 0 <= i < |columns| => Other(columns[i]))
  }

  lemma {:induction false} JoinedIsValues(columns: seq<string>)
    ensures Joined(columns) == Values(Tokens(columns))
  {
    if |columns| > 1 {
      JoinedIsValues(columns[1..]);
      assert Tokens(columns)[1..] == Tokens(columns[1..]);
    }
  }

  /** Columns are listed as the values of a row are: in their order, with the same separator. */
  lemma HeaderListsColumns(columns: seq<string>)
    ensures columns == [] ==> Header(columns) == ""
    ensures columns != [] ==>
              Header(columns) == "INSERT INTO your_table_name (" + Values(Tokens(columns)) + ") VALUES "
  {
    JoinedIsValues(columns);
  }

  /** A reader of values, given the header's list, reads the column names in their order. */
  lemma ColumnsAreRead(columns: seq<string>)
    requires columns != [] && forall i :: 0 <= i < |columns| ==> IsReadable(Other(columns[i]))
    ensures var opening := "INSERT INTO your_table_name (";
            && Expect(Header(columns), opening).Ok?
            && ParseLiterals(Expect(Header(columns), opening).rest, Standard)
               == Ok(DenotedRow(Tokens(columns)), " VALUES ")
  {
    var opening := "INSERT INTO your_table_name (";
    HeaderListsColumns(columns);
    assert Header(columns) == opening + (Values(Tokens(columns)) + ")" + " VALUES ");
    ExpectFinds(opening, Values(Tokens(columns)) + ")" + " VALUES ");
    LiteralsAreRead(Tokens(columns), " VALUES ", Standard);
  }

  /** What the kinds of values are written as. */
  lemma PrintedMeaning(s: string, c: char)
    ensures Printed(Null) == "NULL" && Printed(Int(-120)) == "-120" && Printed(Int(305)) == "305"
    ensures Printed(Str("")) == Printed(Date("")) == "''" && Printed(Other(s)) == s
    ensures Printed(Str(s)) == Printed(Date(s)) == "'" + Doubled(s) + "'"
    ensures Doubled(s + [c]) == Doubled(s) + if c == '\'' then "''" else [c]
  {
    DoubledAppends(s, c);
    assert Digits(120) == Digits(12) + "0" && Digits(12) == Digits(1) + "2" && Digits(1) == "1";
    assert Digits(305) == Digits(30) + "5" && Digits(30) == Digits(3) + "0" && Digits(3) == "3";
  }

  lemma {:induction false} DoubledAppends(s: string, c: char)
    ensures Doubled(s + [c]) == Doubled(s) + if c == '\'' then "''" else [c]
  {
    if s == "" {
      assert s + [c] == [c] && [c][1..] == "";
    } else {
      assert (s + [c])[0] == s[0] && (s + [c])[1..] == s[1..] + [c];
      DoubledAppends(s[1..], c);
    }
  }

  lemma SmallHeader()
    ensures Header(["id", "name"]) == "INSERT INTO your_table_name (id, name) VALUES "
  {
    assert ["id", "name"][1..] == ["name"];
  }

  /** A row of two values, as it stands in the file; and rows follow one another in order. */
  lemma SmallDump(header: string, a: Value, b: Value, others: seq<Row>)
    ensures Dump(header, [[a, b]] + others)
         == header + "(" + Printed(a) + ", " + Printed(b) + ");\n" + Dump(header, others)
  {
    assert [a, b][1..] == [b];
    assert Values([a, b]) == Printed(a) + ", " + Printed(b);
    assert ([[a, b]] + others)[1..] == others;
    SmallLine(header, Printed(a), Printed(b));
  }

  lemma SmallLine(header: string, x: string, y: string)
    ensures header + "(" + (x + ", " + y) + ");\n" == header + "(" + x + ", " + y + ");\n"
  {
  }

  // ---- Printing undoes reading -----------------------------------------------------------------------

  function Reprinted(l: Literal): Value {
    match l
    case LNull => Null
    case LStr(s) => Str(s)
    case LInt(n) => Int(n)
    case LBare(t) => Other(t)
  }

  function ReprintedRow(ls: seq<Literal>): (row: Row)
    ensures |row| == |ls|
  {
    if ls == [] then [] else [Reprinted(ls[0])] + ReprintedRow(ls[1..])
  }

  function ReprintedRows(rows: seq<seq<Literal>>): seq<Row> {
    if rows == [] then [] else [ReprintedRow(rows[0])] + ReprintedRows(rows[1..])
  }

  lemma {:induction false} DoubledOfParsed(s: string)
    requires ParseString(s, Standard).Ok?
    ensures s == Doubled(ParseString(s, Standard).value) + "'" + ParseString(s, Standard).rest
  {
    var r := ParseString(s, Standard);
    if s[0] == '\'' {
      if |s| > 1 && s[1] == '\'' {
        DoubledOfParsed(s[2..]);
        assert r.value[1..] == ParseString(s[2..], Standard).value;
        assert s == "''" + s[2..];
      } else {
        assert s == "'" + s[1..];
      }
    } else {
      DoubledOfParsed(s[1..]);
      assert r.value[1..] == ParseString(s[1..], Standard).value;
      assert s == [s[0]] + s[1..];
    }
  }

  lemma PrintOfParsedLiteral(s: string)
    requires ParseLiteral(s, Standard).Ok?
    ensures s == Printed(Reprinted(ParseLiteral(s, Standard).value)) + ParseLiteral(s, Standard).rest
  {
    if s != "" && s[0] == '\'' {
      QuotedOfParsed(s);
    } else {
      PrintOfClassified(s[..TokenLength(s)]);
    }
  }

  lemma QuotedOfParsed(s: string)
    requires s != "" && s[0] == '\'' && ParseString(s[1..], Standard).Ok?
    ensures s == Quoted(ParseString(s[1..], Standard).value) + ParseString(s[1..], Standard).rest
  {
    DoubledOfParsed(s[1..]);
  }

  lemma PrintOfClassified(token: string)
    ensures Printed(Reprinted(Classify(token))) == token
  {
  }

  lemma {:induction false} PrintOfParsedLiterals(s: string)
    requires ParseLiterals(s, Standard).Ok?
    ensures ParseLiterals(s, Standard).value != []
    ensures s == Values(ReprintedRow(ParseLiterals(s, Standard).value)) + ")" + ParseLiterals(s, Standard).rest
    decreases |s|
  {
    PrintOfParsedLiteral(s);
    var Ok(v, rest) := ParseLiteral(s, Standard);
    if rest != "" && rest[0] == ')' {
      LastPrinted(s, v, rest);
    } else {
      PrintOfParsedLiterals(rest[2..]);
      var Ok(vs, rest') := ParseLiterals(rest[2..], Standard);
      MorePrinted(s, v, rest, vs, rest');
    }
  }

  lemma LastPrinted(s: string, v: Literal, rest: string)
    requires s == Printed(Reprinted(v)) + rest && rest != "" && rest[0] == ')'
    ensures s == Values(ReprintedRow([v])) + ")" + rest[1..]
  {
    assert ReprintedRow([v]) == [Reprinted(v)];
    assert rest == ")" + rest[1..];
    Regroup(Printed(Reprinted(v)), ")", rest[1..]);
  }

  lemma MorePrinted(s: string, v: Literal, rest: string, vs: seq<Literal>, after: string)
    requires s == Printed(Reprinted(v)) + rest && vs != []
    requires |rest| > 1 && rest[..2] == ", " && rest[2..] == Values(ReprintedRow(vs)) + ")" + after
    ensures s == Values(ReprintedRow([v] + vs)) + ")" + after
  {
    assert rest == ", " + rest[2..];
    assert ([v] + vs)[1..] == vs;
    PrependValue(Reprinted(v), ReprintedRow(vs), after);
  }

  lemma PrintOfParsedBody(t: string)
    requires ParseBody(t, Standard).Ok?
    ensures t == Values(ReprintedRow(ParseBody(t, Standard).value)) + ")" + ParseBody(t, Standard).rest
  {
    if t != "" && t[0] == ')' {
      assert t == ")" + t[1..];
    } else {
      PrintOfParsedLiterals(t);
    }
  }

  lemma ExpectedIsThere(s: string, p: string)
    requires Expect(s, p).Ok?
    ensures s == p + Expect(s, p).rest
  {
  }

  lemma PrintOfParsedRow(header: string, s: string)
    requires ParseRow(header, s, Standard).Ok?
    ensures s == Line(header, ReprintedRow(ParseRow(header, s, Standard).value)) + ParseRow(header, s, Standard).rest
  {
    ExpectedIsThere(s, header + "(");
    var t := Expect(s, header + "(").rest;
    PrintOfParsedBody(t);
    var Ok(vs, u) := ParseBody(t, Standard);
    ExpectedIsThere(u, ";\n");
    LineSplit(header, Values(ReprintedRow(vs)), Expect(u, ";\n").rest);
  }

  /** A text the reader accepts is exactly what printing its rows writes: nothing else is taken for a dump. */
  lemma {:induction false} DumpOfRead(header: string, s: string)
    requires ParseDump(header, s, Standard).Some?
    ensures Dump(header, ReprintedRows(ParseDump(header, s, Standard).value)) == s
    decreases |s|
  {
    if s != "" {
      PrintOfParsedRow(header, s);
      var Ok(row, rest) := ParseRow(header, s, Standard);
      DumpOfRead(header, rest);
      var rows := ParseDump(header, rest, Standard).value;
      assert ([row] + rows)[1..] == rows;
    }
  }

  // ---- Readers that take a backslash as an escape ------------------------------------------------------

  /** Whatever the quoting, a reader takes at least as much text as printing what it read would write. */
  lemma {:induction false} StringReadsShort(s: string, q: Quoting)
    requires ParseString(s, q).Ok?
    ensures |s| - |ParseString(s, q).rest| >= |Doubled(ParseString(s, q).value)| + 1
  {
    var r := ParseString(s, q);
    if s[0] == '\'' {
      if |s| > 1 && s[1] == '\'' {
        StringReadsShort(s[2..], q);
        assert r.value[1..] == ParseString(s[2..], q).value;
      }
    } else if q == Backslash && s[0] == '\\' {
      StringReadsShort(s[2..], q);
      assert r.value[1..] == ParseString(s[2..], q).value;
    } else {
      StringReadsShort(s[1..], q);
      assert r.value[1..] == ParseString(s[1..], q).value;
    }
  }

  lemma LiteralReadsShort(s: string, q: Quoting)
    requires ParseLiteral(s, q).Ok?
    ensures |s| - |ParseLiteral(s, q).rest| >= |Printed(Reprinted(ParseLiteral(s, q).value))|
  {
    if s != "" && s[0] == '\'' {
      StringReadsShort(s[1..], q);
    } else {
      PrintOfClassified(s[..TokenLength(s)]);
    }
  }

  lemma {:induction false} LiteralsReadShort(s: string, q: Quoting)
    requires ParseLiterals(s, q).Ok?
    ensures ParseLiterals(s, q).value != []
    ensures |s| - |ParseLiterals(s, q).rest| >= |Values(ReprintedRow(ParseLiterals(s, q).value))| + 1
    decreases |s|
  {
    LiteralReadsShort(s, q);
    var Ok(v, rest) := ParseLiteral(s, q);
    if rest != "" && rest[0] == ')' {
      assert ReprintedRow([v]) == [Reprinted(v)];
    } else {
      LiteralsReadShort(rest[2..], q);
      var Ok(vs, rest') := ParseLiterals(rest[2..], q);
      assert ([v] + vs)[1..] == vs;
      PrependValue(Reprinted(v), ReprintedRow(vs), "");
    }
  }

  lemma RowReadsShort(header: string, s: string, q: Quoting)
    requires ParseRow(header, s, q).Ok?
    ensures |s| - |ParseRow(header, s, q).rest| >= |Line(header, ReprintedRow(ParseRow(header, s, q).value))|
  {
    ExpectedIsThere(s, header + "(");
    var t := Expect(s, header + "(").rest;
    if !(t != "" && t[0] == ')') {
      LiteralsReadShort(t, q);
    }
    ExpectedIsThere(ParseBody(t, q).rest, ";\n");
  }

  lemma {:induction false} DumpReadsShort(header: string, s: string, q: Quoting)
    requires ParseDump(header, s, q).Some?
    ensures |s| >= |Dump(header, ReprintedRows(ParseDump(header, s, q).value))|
    decreases |s|
  {
    if s != "" {
      RowReadsShort(header, s, q);
      var Ok(row, rest) := ParseRow(header, s, q);
      DumpReadsShort(header, rest, q);
      var rows := ParseDump(header, rest, q).value;
      assert ([row] + rows)[1..] == rows;
    }
  }

  lemma {:induction false} RowPrintsBack(row: Row)
    ensures Values(ReprintedRow(DenotedRow(row))) == Values(row)
  {
    if row != [] {
      RowPrintsBack(row[1..]);
      assert DenotedRow(row)[1..] == DenotedRow(row[1..]);
      assert ReprintedRow(DenotedRow(row))[1..] == ReprintedRow(DenotedRow(row[1..]));
    }
  }

  lemma {:induction false} RowsPrintBack(header: string, rows: seq<Row>)
    ensures Dump(header, ReprintedRows(DenotedRows(rows))) == Dump(header, rows)
  {
    if rows != [] {
      RowPrintsBack(rows[0]);
      RowsPrintBack(header, rows[1..]);
      assert DenotedRows(rows)[1..] == DenotedRows(rows[1..]);
      assert ReprintedRows(DenotedRows(rows))[1..] == ReprintedRows(DenotedRows(rows[1..]));
    }
  }

  /** If a string with a backslash is read as itself after all, the reader ran on into what follows it. */
  lemma {:induction false} BackslashOverruns(v: string, rest: string)
    requires '\\' in v && (rest == "" || rest[0] != '\'')
    ensures var r := ParseString(Doubled(v) + "'" + rest, Backslash);
            r.Ok? && r.value == v ==> |r.rest| < |rest|
  {
    var s := Doubled(v) + "'" + rest;
    var t := Doubled(v[1..]) + "'" + rest;
    if v[0] == '\'' {
      BackslashOverruns(v[1..], rest);
      assert s == "''" + t && s[2..] == t;
    } else if v[0] == '\\' {
      assert s == "\\" + t && s[1] == t[0] && s[2..] == t[1..];
      if ParseString(s, Backslash).Ok? && ParseString(s, Backslash).value == v {
        StringReadsShort(t[1..], Backslash);
        assert ParseString(t[1..], Backslash).value == v[1..];
      }
    } else {
      BackslashOverruns(v[1..], rest);
      assert s == [v[0]] + t && s[1..] == t;
    }
  }

  /** Such a reader gets a printed string back exactly when the string holds no backslash. */
  lemma BackslashReaderAgreesIff(v: string, rest: string)
    requires rest == "" || rest[0] != '\''
    ensures ParseString(Doubled(v) + "'" + rest, Backslash) == Ok(v, rest) <==> '\\' !in v
  {
    if '\\' in v {
      BackslashOverruns(v, rest);
    } else {
      ParseStringOfDoubled(v, rest, Backslash);
    }
  }

  lemma LiteralOverruns(v: Value, rest: string)
    requires !Survives(v, Backslash) && Follows(rest)
    ensures var r := ParseLiteral(Printed(v) + rest, Backslash);
            r.Ok? && r.value == Denoted(v) ==> |r.rest| < |rest|
  {
    var text := if v.Str? then v.s else v.text;
    BackslashOverruns(text, rest);
    var t := Quoted(text) + rest;
    assert t[0] == '\'' && t[1..] == Doubled(text) + "'" + rest;
  }

  predicate RowSurvives(row: Row, q: Quoting) {
    forall i :: 0 <= i < |row| ==> Survives(row[i], q)
  }

  lemma {:induction false} LiteralsOverrun(row: Row, rest: string)
    requires forall i :: 0 <= i < |row| ==> IsReadable(row[i])
    requires !RowSurvives(row, Backslash)
    ensures var r := ParseLiterals(Values(row) + ")" + rest, Backslash);
            r.Ok? && r.value == DenotedRow(row) ==> |r.rest| < |rest|
  {
    var v, others := row[0], row[1..];
    assert row == [v] + others;
    if !Survives(v, Backslash) {
      FirstOverruns(v, others, rest);
    } else {
      assert !RowSurvives(others, Backslash);
      LiteralsOverrun(others, rest);
      OneMoreLiteral(v, Values(others) + ")" + rest, Backslash);
      PrependValue(v, others, rest);
      assert DenotedRow(row)[1..] == DenotedRow(others);
    }
  }

  lemma FirstOverruns(v: Value, others: Row, rest: string)
    requires !Survives(v, Backslash)
    ensures var r := ParseLiterals(Values([v] + others) + ")" + rest, Backslash);
            r.Ok? && r.value == DenotedRow([v] + others) ==> |r.rest| < |rest|
  {
    var row, s := [v] + others, Values([v] + others) + ")" + rest;
    assert row[0] == v && row[1..] == others;
    var tail := if others == [] then ")" + rest else ", " + (Values(others) + ")" + rest);
    assert s == Printed(v) + tail by {
      if others != [] { PrependValue(v, others, rest); }
    }
    LiteralOverruns(v, tail);
    var r := ParseLiterals(s, Backslash);
    if r.Ok? && r.value == DenotedRow(row) {
      var first := ParseLiteral(s, Backslash);
      assert r.value[0] == Denoted(v) && r.value[1..] == DenotedRow(others);
      if !(first.rest != "" && first.rest[0] == ')') {
        LiteralsReadShort(first.rest[2..], Backslash);
        RowPrintsBack(others);
      }
    }
  }

  lemma BodyOverruns(row: Row, tail: string)
    requires forall i :: 0 <= i < |row| ==> IsReadable(row[i])
    requires !RowSurvives(row, Backslash)
    ensures var r := ParseBody(Values(row) + ")" + tail, Backslash);
            r.Ok? && r.value == DenotedRow(row) ==> |r.rest| < |tail|
  {
    LiteralsOverrun(row, tail);
  }

  lemma RowOverruns(header: string, row: Row, rest: string)
    requires forall i :: 0 <= i < |row| ==> IsReadable(row[i])
    requires !RowSurvives(row, Backslash)
    ensures var r := ParseRow(header, Line(header, row) + rest, Backslash);
            r.Ok? && r.value == DenotedRow(row) ==> |r.rest| < |rest|
  {
    var tail := ";\n" + rest;
    LineSplit(header, Values(row), rest);
    ExpectFinds(header + "(", Values(row) + ")" + tail);
    BodyOverruns(row, tail);
    var body := ParseBody(Values(row) + ")" + tail, Backslash);
    if body.Ok? {
      ExpectedLength(body.rest);
    }
  }

  lemma ExpectedLength(s: string)
    ensures Expect(s, ";\n").Ok? ==> |Expect(s, ";\n").rest| == |s| - 2
  {
  }

  lemma {:induction false} DumpMisread(header: string, rows: seq<Row>)
    requires forall k, i :: 0 <= k < |rows| && 0 <= i < |rows[k]| ==> IsReadable(rows[k][i])
    requires exists k :: 0 <= k < |rows| && !RowSurvives(rows[k], Backslash)
    ensures ParseDump(header, Dump(header, rows), Backslash) != Some(DenotedRows(rows))
  {
    var row, others := rows[0], rows[1..];
    var s, rest := Dump(header, rows), Dump(header, others);
    assert s == Line(header, row) + rest && s != "";
    assert DenotedRows(rows)[0] == DenotedRow(row) && DenotedRows(rows)[1..] == DenotedRows(others);
    if RowSurvives(row, Backslash) {
      var k :| 0 <= k < |rows| && !RowSurvives(rows[k], Backslash);
      assert others[k - 1] == rows[k];
      RowIsRead(header, row, rest, Backslash);
      DumpMisread(header, others);
    } else {
      RowOverruns(header, row, rest);
      var r := ParseRow(header, s, Backslash);
      if r.Ok? && ParseDump(header, r.rest, Backslash) == Some(DenotedRows(others)) {
        DumpReadsShort(header, r.rest, Backslash);
        RowsPrintBack(header, others);
      }
    }
  }

  /** A reader that takes backslashes as escapes recovers a dump's rows exactly when no string or date holds one. */
  lemma BackslashDumpIsReadIff(header: string, rows: seq<Row>)
    requires forall k, i :: 0 <= k < |rows| && 0 <= i < |rows[k]| ==> IsReadable(rows[k][i])
    ensures ParseDump(header, Dump(header, rows), Backslash) == Some(DenotedRows(rows))
       <==> forall k :: 0 <= k < |rows| ==> RowSurvives(rows[k], Backslash)
  {
    if forall k :: 0 <= k < |rows| ==> RowSurvives(rows[k], Backslash) {
      DumpIsRead(header, rows, Backslash);
    } else {
      DumpMisread(header, rows);
    }
  }
}
