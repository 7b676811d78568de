/** Quoted SQL names, and what an SQL lexer reads in them. */
module SqlNames {
  import opened Options
  import opened Strings

  // ---- What the application writes ----

  predicate IsLetter(c: char) {
    'a' <= c <= 'z' || 'A' <= c <= 'Z' || c == '_'
  }

  predicate IsWordChar(c: char) {
    IsLetter(c) || '0' <= c <= '9'
  }

  /** A name that is left as it is. */
  predicate IsBare(id: string) {
    id != "" && IsLetter(id[0]) && forall i | 0 <= i < |id| :: IsWordChar(id[i])
  }

  function Doubled(id: string): string {
    if id == "" then "" else (if id[0] == '"' then "\"\"" else [id[0]]) + Doubled(id[1..])
  }

  function QuoteIdentifier(id: string): string {
    if IsBare(id) then id else "\"" + Doubled(id) + "\""
  }

  datatype Table = Table(name: string, schema: Option<string>)

  predicate IsFile(sourceType: Option<string>) {
    sourceType == Some("file")
  }

  predicate NeedsSchema(table: Table, sourceType: Option<string>) {
    !IsFile(sourceType) && table.schema.Some? && table.schema.value !in {"", "public", "file"}
  }

  function TableName(table: Table, sourceType: Option<string>): string {
    if IsFile(sourceType) then "data" else table.name
  }

  function BuildTableRef(table: Table, sourceType: Option<string>): string {
    var name := QuoteIdentifier(TableName(table, sourceType));
    if NeedsSchema(table, sourceType) then QuoteIdentifier(table.schema.value) + "." + name else name
  }

  // ---- What an SQL lexer reads (ISO/IEC 9075-2, section 5.2) ----

  datatype Token = Name(id: string) | Keyword(word: string) | Period

  /** The reserved words, in capitals. */
  type Reserved = set<string>

  predicate IsReserved(reserved: Reserved, word: string) {
    Upper(word) in reserved
  }

  /** How many characters of a word s begins with. */
  function WordLength(s: string): (n: nat)
    ensures n <= |s|
  {
    if s != "" && IsWordChar(s[0]) then 1 + WordLength(s[1..]) else 0
  }

  /** The body of a delimited identifier, after its opening quote, and what follows its closing quote. */
  function Body(s: string): (r: Option<(string, string)>)
    ensures r.Some? ==> |r.value.1| < |s|
  {
    if s == "" then None
    else if s[0] != '"' then
      var (body, rest) :- Body(s[1..]);
      Some(([s[0]] + body, rest))
    else if |s| > 1 && s[1] == '"' then
      var (body, rest) :- Body(s[2..]);
      Some(("\"" + body, rest))
    else Some(("", s[1..]))
  }

  /** The tokens of a text; None when it has a character or an empty delimited identifier no token begins with. */
  function Lex(reserved: Reserved, s: string): Option<seq<Token>>
    decreases |s|
  {
    if s == "" then Some([])
    else if s[0] == '"' then
      var (body, rest) :- Body(s[1..]);
      var tokens :- Lex(reserved, rest);
      if body == "" then None else Some([Name(body)] + tokens)
    else if s[0] == '.' then
      var tokens :- Lex(reserved, s[1..]);
      Some([Period] + tokens)
    else if IsLetter(s[0]) then
      var word := s[..WordLength(s)];
      var tokens :- Lex(reserved, s[WordLength(s)..]);
      Some([if IsReserved(reserved, word) then Keyword(word) else Name(word)] + tokens)
    else None
  }

  /** A table reference: a name, or a schema's name and a name. */
  function ReadTable(reserved: Reserved, s: string): Option<seq<string>> {
    var tokens :- Lex(reserved, s);
    if |tokens| == 1 && tokens[0].Name? then Some([tokens[0].id])
    else if |tokens| == 3 && tokens[0].Name? && tokens[1].Period? && tokens[2].Name? then
      Some([tokens[0].id, tokens[2].id])
    else None
  }

  // ---- What was written is what is read ----

  /** The name can be told apart from nothing and from a keyword. */
  predicate Readable(reserved: Reserved, id: string) {
    id != "" && !(IsBare(id) && IsReserved(reserved, id))
  }

  lemma {:induction false} BodyOfDoubled(id: string, rest: string)
    requires rest == "" || rest[0] != '"'
    ensures Body(Doubled(id) + ("\"" + rest)) == Some((id, rest))
  {
    var s := Doubled(id) + ("\"" + rest);
    if id == "" {
      assert s == "\"" + rest;
    } else {
      BodyOfDoubled(id[1..], rest);
      var below := Doubled(id[1..]) + ("\"" + rest);
      assert id == [id[0]] + id[1..];
      if id[0] == '"' {
        assert s[0] == '"' && s[1] == '"' && s[2..] == below;
      } else {
        assert s[0] == id[0] && s[1..] == below;
      }
    }
  }

  lemma {:induction false} WordOf(word: string, rest: string)
    requires (forall i | 0 <= i < |word| :: IsWordChar(word[i])) && (rest == "" || !IsWordChar(rest[0]))
    ensures WordLength(word + rest) == |word|
  {
    if word == "" {
      assert word + rest == rest;
    } else {
      WordOf(word[1..], rest);
      assert (word + rest)[1..] == word[1..] + rest;
    }
  }

  function TokenOf(reserved: Reserved, id: string): Token {
    if IsBare(id) && IsReserved(reserved, id) then Keyword(id) else Name(id)
  }

  /** A quoted name is one token, whatever it holds, when the text ends or a period follows. */
  lemma LexQuoted(reserved: Reserved, id: string, rest: string)
    requires rest == "" || rest[0] == '.'
    ensures var tokens := Lex(reserved, rest);
            Lex(reserved, QuoteIdentifier(id) + rest)
            == if id == "" || tokens == None then None else Some([TokenOf(reserved, id)] + tokens.value)
  {
    hide Lex, Doubled;
    if IsBare(id) {
      LexBare(reserved, id, rest);
    } else {
      LexDelimited(reserved, id, rest);
    }
  }

  lemma LexBare(reserved: Reserved, word: string, rest: string)
    requires IsBare(word) && (rest == "" || rest[0] == '.')
    ensures var tokens := Lex(reserved, rest);
            Lex(reserved, word + rest)
            == if tokens == None then None else Some([TokenOf(reserved, word)] + tokens.value)
  {
    hide WordLength, Body, IsReserved;
    var s := word + rest;
    WordOf(word, rest);
    assert s[0] == word[0] && s[..|word|] == word && s[|word|..] == rest;
  }

  lemma LexDelimited(reserved: Reserved, id: string, rest: string)
    requires rest == "" || rest[0] == '.'
    ensures var tokens := Lex(reserved, rest);
            Lex(reserved, "\"" + Doubled(id) + "\"" + rest)
            == if id == "" || tokens == None then None else Some([Name(id)] + tokens.value)
  {
    hide WordLength, Body, IsReserved, Doubled;
    var s := "\"" + Doubled(id) + "\"" + rest;
    BodyOfDoubled(id, rest);
    assert s[0] == '"' && s[1..] == Doubled(id) + ("\"" + rest);
  }

  lemma LexEnd(reserved: Reserved)
    ensures Lex(reserved, "") == Some([])
  {
  }

  lemma LexPeriod(reserved: Reserved, rest: string)
    ensures var tokens := Lex(reserved, rest);
            Lex(reserved, "." + rest) == if tokens == None then None else Some([Period] + tokens.value)
  {
    assert ("." + rest)[1..] == rest;
  }

  /** A name is read back exactly when it is not empty and not a reserved word left bare. */
  lemma QuotedIsRead(reserved: Reserved, id: string)
    ensures ReadTable(reserved, QuoteIdentifier(id)) == if Readable(reserved, id) then Some([id]) else None
  {
    hide Lex, QuoteIdentifier, IsBare, IsReserved;
    LexQuoted(reserved, id, "");
    LexEnd(reserved);
    assert QuoteIdentifier(id) + "" == QuoteIdentifier(id);
  }

  lemma TwoNamesAreRead(reserved: Reserved, a: string, b: string)
    ensures ReadTable(reserved, QuoteIdentifier(a) + "." + QuoteIdentifier(b))
            == if Readable(reserved, a) && Readable(reserved, b) then Some([a, b]) else None
  {
    hide Lex, QuoteIdentifier, IsBare, IsReserved;
    var qa, qb := QuoteIdentifier(a), QuoteIdentifier(b);
    LexQuoted(reserved, b, "");
    LexEnd(reserved);
    assert qb + "" == qb;
    LexPeriod(reserved, qb);
    LexQuoted(reserved, a, "." + qb);
    assert qa + "." + qb == qa + ("." + qb);
  }

  /**
    A table reference is read as exactly the names it was made of, dots and quotes in them included, or,
    if one of them is empty or a bare reserved word, as none.
  */
  lemma TableRefIsRead(reserved: Reserved, table: Table, sourceType: Option<string>)
    ensures var name := TableName(table, sourceType);
            ReadTable(reserved, BuildTableRef(table, sourceType))
            == if !Readable(reserved, name) then None
               else if !NeedsSchema(table, sourceType) then Some([name])
               else if Readable(reserved, table.schema.value) then Some([table.schema.value, name]) else None
  {
    hide ReadTable, Readable, QuoteIdentifier;
    var name := TableName(table, sourceType);
    QuotedIsRead(reserved, name);
    if NeedsSchema(table, sourceType) {
      TwoNamesAreRead(reserved, table.schema.value, name);
    }
  }

  /** So different tables get different references, wherever those can be read at all. */
  lemma TableRefsDiffer(t: Table, u: Table, sourceType: Option<string>)
    requires !IsFile(sourceType) && t.name != "" && u.name != ""
             && BuildTableRef(t, sourceType) == BuildTableRef(u, sourceType)
    ensures t.name == u.name
    ensures t.schema == u.schema || {t.schema, u.schema} <= {None, Some(""), Some("public"), Some("file")}
  {
    ReferenceIsRead({}, t, sourceType);
    ReferenceIsRead({}, u, sourceType);
  }

  /** A name is left as it is exactly when it is letters, digits and underscores, and begins with no digit. */
  lemma LeftBareExactly(id: string)
    ensures QuoteIdentifier(id) == id
            <==> id != "" && !('0' <= id[0] <= '9')
                 && forall i | 0 <= i < |id| ::
                      'a' <= id[i] <= 'z' || 'A' <= id[i] <= 'Z' || '0' <= id[i] <= '9' || id[i] == '_'
  {
    if !IsBare(id) {
      DoubledIsLonger(id);
    }
  }

  lemma {:induction false} DoubledIsLonger(id: string)
    ensures |Doubled(id)| >= |id|
  {
    if id == "" {
    } else {
      DoubledIsLonger(id[1..]);
    }
  }

  /** Tables of files are called data, and the schemas public and file, an empty one, and none are not written. */
  lemma ReferenceIsRead(reserved: Reserved, table: Table, sourceType: Option<string>)
    ensures sourceType == Some("file") ==>
              ReadTable(reserved, BuildTableRef(table, sourceType))
              == if "DATA" in reserved then None else Some(["data"])
    ensures sourceType != Some("file") && table.schema in {None, Some(""), Some("public"), Some("file")} ==>
              ReadTable(reserved, BuildTableRef(table, sourceType))
              == if Readable(reserved, table.name) then Some([table.name]) else None
    ensures sourceType != Some("file") && table.schema !in {None, Some(""), Some("public"), Some("file")} ==>
              ReadTable(reserved, BuildTableRef(table, sourceType))
              == if Readable(reserved, table.schema.value) && Readable(reserved, table.name)
                 then Some([table.schema.value, table.name]) else None
  {
    hide ReadTable, BuildTableRef, QuoteIdentifier;
    TableRefIsRead(reserved, table, sourceType);
    if sourceType == Some("file") {
      assert Upper("data") == "DATA";
      assert Readable(reserved, "data") <==> "DATA" !in reserved;
    }
  }

  /** A table called `order` is left bare, and an SQL lexer takes it for the keyword. */
  lemma ReservedNameIsLost(reserved: Reserved)
    requires "ORDER" in reserved
    ensures ReadTable(reserved, BuildTableRef(Table("order", None), None)) == None
  {
    TableRefIsRead(reserved, Table("order", None), None);
    assert Upper("order") == "ORDER";
  }
}
