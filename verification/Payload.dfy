/** The text handed to iptables-restore, and reading it back. */
module Payload {
  import opened Common
  import opened Text

  type Line = seq<string>

  datatype Table = Table(name: string, lines: seq<Line>)

  // ---- printing ----

  /** The token after --comment is put in quotes. */
  predicate IsComment(line: Line, i: nat) { 0 < i < |line| && line[i - 1] == "--comment" }

  function Piece(line: Line, i: nat): string
    requires i < |line|
  {
    if IsComment(line, i) then "\"" + line[i] + "\"" else line[i]
  }

  function Pieces(line: Line): seq<string> { seq(|line|, i requires 0 <= i < |line| => Piece(line, i)) }

  /** An empty rule prints nothing, not even a line break. */
  function LineText(line: Line): string {
    if line == [] then "" else Join(Pieces(line), ' ') + "\n"
  }

  function LineTexts(lines: seq<Line>): seq<string> {
    seq(|lines|, i requires 0 <= i < |lines| => LineText(lines[i]))
  }

  function TableText(t: Table): string { "*" + t.name + "\n" + Concat(LineTexts(t.lines)) + "COMMIT\n" }

  function TableTexts(tables: seq<Table>): seq<string> {
    seq(|tables|, i requires 0 <= i < |tables| => TableText(tables[i]))
  }

  function PayloadText(tables: seq<Table>): string { Concat(TableTexts(tables)) }

  /** The tables of the map, in the order in which Go iterates it. */
  function InOrder(order: seq<string>, tr: map<string, seq<Line>>): seq<Table>
    requires forall t | t in order :: t in tr
  {
    seq(|order|, i requires 0 <= i < |order| => Table(order[i], tr[order[i]]))
  }

  lemma JoinMore(parts: seq<string>, last: string, c: char)
    requires parts != []
    ensures Join(parts + [last], c) == Join(parts, c) + [c] + last
  {
    if |parts| == 1 {
      assert (parts + [last])[1..] == [last];
    } else {
      JoinMore(parts[1..], last, c);
      assert (parts + [last])[1..] == parts[1..] + [last];
    }
  }

  method BuildLine(line: Line) returns (text: string)
    ensures text == LineText(line)
  {
    text := "";
    var size := |line|;
    for i := 0 to size
      invariant text == if i == 0 then "" else if i < size then Join(Pieces(line)[..i], ' ') + " " else LineText(line)
    {
      ghost var before := text;
      if i > 0 && line[i - 1] == "--comment" {
        text := text + "\"" + line[i] + "\"";
      } else {
        text := text + line[i];
      }
      assert Pieces(line)[..i + 1] == Pieces(line)[..i] + [Piece(line, i)];
      assert before + Piece(line, i) == text by {
        assert before + ("\"" + line[i] + "\"") == before + "\"" + line[i] + "\"";
      }
      if i > 0 {
        JoinMore(Pieces(line)[..i], Piece(line, i), ' ');
      }
      if i < size - 1 {
        text := text + " ";
      } else {
        assert Pieces(line)[..size] == Pieces(line);
        text := text + "\n";
      }
    }
  }

  lemma OneMoreText(texts: seq<string>, n: nat)
    requires n < |texts|
    ensures Concat(texts[..n + 1]) == Concat(texts[..n]) + texts[n]
  {
    assert texts[..n + 1][..n] == texts[..n];
  }

  method BuildTable(table: string, rules: seq<Line>) returns (text: string)
    ensures text == TableText(Table(table, rules))
  {
    text := "*" + table + "\n";
    ghost var head := text;
    for j := 0 to |rules|
      invariant text == head + Concat(LineTexts(rules)[..j])
    {
      var line := BuildLine(rules[j]);
      OneMoreText(LineTexts(rules), j);
      text := text + line;
    }
    assert LineTexts(rules)[..|rules|] == LineTexts(rules);
    text := text + "COMMIT\n";
  }

  method BuildIPTablesRestorePayload(order: seq<string>, tr: map<string, seq<Line>>) returns (payload: string)
    requires forall t | t in order :: t in tr
    ensures payload == PayloadText(InOrder(order, tr))
  {
    payload := "";
    ghost var texts := TableTexts(InOrder(order, tr));
    for n := 0 to |order|
      invariant payload == Concat(texts[..n])
    {
      var text := BuildTable(order[n], tr[order[n]]);
      OneMoreText(texts, n);
      payload := payload + text;
    }
    assert texts[..|order|] == texts;
  }

  // ---- reading ----

  /** The tokens of a line: separated by one space each; a token in quotes may hold spaces. */
  function Tokens(s: string): Option<Line> {
    if s != "" && s[0] == '"' then
      match Cut(s[1..], '"')
      case None => None
      case Some((text, rest)) =>
        if rest == "" then Some([text])
        else if rest[0] != ' ' then None
        else match Tokens(rest[1..]) case None => None case Some(more) => Some([text] + more)
    else
      match Cut(s, ' ')
      case None => Some([s])
      case Some((text, rest)) => match Tokens(rest) case None => None case Some(more) => Some([text] + more)
  }

  function AllTokens(texts: seq<string>): Option<seq<Line>> {
    if texts == [] then Some([])
    else match (Tokens(texts[0]), AllTokens(texts[1..]))
      case (Some(line), Some(more)) => Some([line] + more)
      case _ => None
  }

  /** Blocks of a table name, rules and COMMIT. */
  function ReadTables(texts: seq<string>): Option<seq<Table>>
    decreases |texts|
  {
    if texts == [] then Some([])
    else
      var n := IndexOf(texts, "COMMIT");
      if texts[0] == "" || texts[0][0] != '*' || n == |texts| || n == 0 then None
      else match (AllTokens(texts[1..n]), ReadTables(texts[n + 1..]))
        case (Some(lines), Some(more)) => Some([Table(texts[0][1..], lines)] + more)
        case _ => None
  }

  function ReadPayload(s: string): Option<seq<Table>> {
    var texts := Split(s, '\n');
    if texts[|texts| - 1] != "" then None else ReadTables(texts[..|texts| - 1])
  }

  // ---- round trip ----

  predicate GoodLine(line: Line) {
    line != [] && forall i | 0 <= i < |line| ::
      '\n' !in line[i] && '"' !in line[i] && (IsComment(line, i) || ' ' !in line[i])
  }

  predicate GoodTable(t: Table) { '\n' !in t.name && forall i | 0 <= i < |t.lines| :: GoodLine(t.lines[i]) }

  /** A piece of text and the token it stands for. */
  predicate Shows(piece: string, token: string) {
    (piece == "\"" + token + "\"" && '"' !in token) || (piece == token && '"' !in token && ' ' !in token)
  }

  lemma BareToken(token: string, rest: string)
    requires '"' !in token && ' ' !in token
    ensures Tokens(token) == Some([token])
    ensures Tokens(token + " " + rest) == match Tokens(rest) case None => None case Some(more) => Some([token] + more)
  {
    CutAt(token, ' ', rest);
  }

  lemma QuotedToken(token: string, after: string)
    requires '"' !in token
    ensures Tokens("\"" + token + "\"" + after)
            == if after == "" then Some([token])
               else if after[0] != ' ' then None
               else match Tokens(after[1..]) case None => None case Some(more) => Some([token] + more)
  {
    var s := "\"" + token + "\"" + after;
    assert s[0] == '"' && s[1..] == token + ['"'] + after;
    CutAt(token, '"', after);
  }

  lemma FirstToken(piece: string, token: string, rest: string)
    requires Shows(piece, token)
    ensures Tokens(piece) == Some([token])
    ensures Tokens(piece + " " + rest) == match Tokens(rest) case None => None case Some(more) => Some([token] + more)
  {
    if piece == token {
      BareToken(token, rest);
    } else {
      assert piece == "\"" + token + "\"" + "" && piece + " " + rest == "\"" + token + "\"" + (" " + rest);
      assert (" " + rest)[1..] == rest;
      QuotedToken(token, "");
      QuotedToken(token, " " + rest);
    }
  }

  lemma {:induction false} TokensOfPieces(pieces: seq<string>, line: Line)
    requires |pieces| == |line| > 0 && forall i | 0 <= i < |line| :: Shows(pieces[i], line[i])
    ensures Tokens(Join(pieces, ' ')) == Some(line)
  {
    if |line| == 1 {
      FirstToken(pieces[0], line[0], "");
      assert line == [line[0]];
    } else {
      TokensOfPieces(pieces[1..], line[1..]);
      FirstToken(pieces[0], line[0], Join(pieces[1..], ' '));
      assert line == [line[0]] + line[1..];
    }
  }

  function Body(line: Line): string { if line == [] then "" else Join(Pieces(line), ' ') }

  lemma {:induction false} JoinedWithout(parts: seq<string>, c: char, d: char)
    requires parts != [] && c != d && forall i | 0 <= i < |parts| :: d !in parts[i]
    ensures d !in Join(parts, c)
  {
    if |parts| > 1 {
      JoinedWithout(parts[1..], c, d);
    }
  }

  /** A good line reads back, has no line break, and looks like COMMIT only if it is that one token. */
  lemma LineBack(line: Line)
    requires GoodLine(line)
    ensures Tokens(Body(line)) == Some(line) && '\n' !in Body(line)
    ensures Body(line) == "COMMIT" <==> line == ["COMMIT"]
  {
    forall i | 0 <= i < |line| ensures Shows(Pieces(line)[i], line[i]) && '\n' !in Pieces(line)[i] {
    }
    TokensOfPieces(Pieces(line), line);
    JoinedWithout(Pieces(line), ' ', '\n');
    assert IndexOf("COMMIT", ' ') == 6;
    assert Tokens("COMMIT") == Some(["COMMIT"]);
  }

  function Bodies(lines: seq<Line>): seq<string> { seq(|lines|, i requires 0 <= i < |lines| => Body(lines[i])) }

  /** The texts of a table's lines, without line breaks. */
  function Texts(t: Table): seq<string> { ["*" + t.name] + Bodies(t.lines) + ["COMMIT"] }

  function AllTexts(tables: seq<Table>): seq<string> {
    if tables == [] then [] else Texts(tables[0]) + AllTexts(tables[1..])
  }

  lemma EndedConcat(a: seq<string>, b: seq<string>)
    ensures Concat(Ended(a + b, '\n')) == Concat(Ended(a, '\n')) + Concat(Ended(b, '\n'))
  {
    assert Ended(a + b, '\n') == Ended(a, '\n') + Ended(b, '\n');
    ConcatSplit(Ended(a, '\n'), Ended(b, '\n'));
  }

  lemma EndedOne(s: string)
    ensures Concat(Ended([s], '\n')) == s + "\n"
  {
    assert Ended([s], '\n') == [s + "\n"];
    assert Concat([s + "\n"]) == s + "\n";
  }

  lemma TableEnded(t: Table)
    requires GoodTable(t)
    ensures TableText(t) == Concat(Ended(Texts(t), '\n'))
    ensures forall i | 0 <= i < |Texts(t)| :: '\n' !in Texts(t)[i]
  {
    forall i | 0 <= i < |t.lines| ensures LineText(t.lines[i]) == Body(t.lines[i]) + "\n" && '\n' !in Body(t.lines[i]) {
      LineBack(t.lines[i]);
    }
    assert LineTexts(t.lines) == Ended(Bodies(t.lines), '\n');
    EndedConcat(["*" + t.name] + Bodies(t.lines), ["COMMIT"]);
    EndedConcat(["*" + t.name], Bodies(t.lines));
    EndedOne("*" + t.name);
    EndedOne("COMMIT");
  }

  lemma {:induction false} PayloadEnded(tables: seq<Table>)
    requires forall i | 0 <= i < |tables| :: GoodTable(tables[i])
    ensures PayloadText(tables) == Concat(Ended(AllTexts(tables), '\n'))
    ensures forall i | 0 <= i < |AllTexts(tables)| :: '\n' !in AllTexts(tables)[i]
  {
    if tables != [] {
      var t, rest := tables[0], tables[1..];
      PayloadEnded(rest);
      TableEnded(t);
      assert TableTexts(tables) == [TableText(t)] + TableTexts(rest);
      ConcatSplit([TableText(t)], TableTexts(rest));
      assert Concat([TableText(t)]) == TableText(t);
      EndedConcat(Texts(t), AllTexts(rest));
    }
  }

  lemma TokensFirst(text: string, line: Line, texts: seq<string>, lines: seq<Line>)
    requires Tokens(text) == Some(line) && AllTokens(texts) == Some(lines)
    ensures AllTokens([text] + texts) == Some([line] + lines)
  {
    assert ([text] + texts)[1..] == texts;
  }

  lemma {:induction false} TokensOfBodies(lines: seq<Line>)
    requires forall i | 0 <= i < |lines| :: GoodLine(lines[i])
    ensures AllTokens(Bodies(lines)) == Some(lines)
  {
    if lines != [] {
      var first, rest := lines[0], lines[1..];
      LineBack(first);
      TokensOfBodies(rest);
      TokensFirst(Body(first), first, Bodies(rest), rest);
      assert lines == [first] + rest;
      assert Bodies(lines) == [Body(first)] + Bodies(rest);
    }
  }

  lemma NoEarlierCommit(t: Table, n: nat)
    requires GoodTable(t) && n <= |t.lines| && ["COMMIT"] !in t.lines[..n]
    ensures "COMMIT" !in ["*" + t.name] + Bodies(t.lines[..n])
  {
    var head := ["*" + t.name] + Bodies(t.lines[..n]);
    assert head[0][0] == '*' && "COMMIT"[0] == 'C';
    forall i | 0 < i < |head| ensures head[i] != "COMMIT" {
      LineBack(t.lines[i - 1]);
      assert t.lines[i - 1] == t.lines[..n][i - 1];
    }
  }

  /** Where the block of a table seems to end: at its first line that is just COMMIT, or at the real end. */
  lemma EndOfBlock(t: Table, rest: seq<string>)
    requires GoodTable(t)
    ensures var n := IndexOf(t.lines, ["COMMIT"]);
            IndexOf(Texts(t) + rest, "COMMIT") == n + 1 && (Texts(t) + rest)[1..n + 1] == Bodies(t.lines[..n])
  {
    var texts, n := Texts(t) + rest, IndexOf(t.lines, ["COMMIT"]);
    if n < |t.lines| {
      LineBack(t.lines[n]);
    }
    assert texts[n + 1] == "COMMIT";
    NoEarlierCommit(t, n);
    assert texts[..n + 1] == ["*" + t.name] + Bodies(t.lines[..n]);
    FirstIndex(texts, n + 1, "COMMIT");
  }

  /** The first block reads back as its lines before any that is just COMMIT. */
  lemma ReadFirst(t: Table, rest: seq<string>)
    requires GoodTable(t)
    ensures var n := IndexOf(t.lines, ["COMMIT"]);
            ReadTables(Texts(t) + rest)
            == match ReadTables((Texts(t) + rest)[n + 2..])
               case None => None
               case Some(more) => Some([Table(t.name, t.lines[..n])] + more)
    ensures ["COMMIT"] !in t.lines ==> (Texts(t) + rest)[IndexOf(t.lines, ["COMMIT"]) + 2..] == rest
  {
    EndOfBlock(t, rest);
    var n := IndexOf(t.lines, ["COMMIT"]);
    TokensOfBodies(t.lines[..n]);
    assert (Texts(t) + rest)[0] == "*" + t.name;
    assert ("*" + t.name)[1..] == t.name;
  }

  predicate NoCommitLine(tables: seq<Table>) { forall i | 0 <= i < |tables| :: ["COMMIT"] !in tables[i].lines }

  lemma SameHead<T>(a: T, more: seq<T>, b: T, rest: seq<T>)
    ensures [a] + more == [b] + rest <==> a == b && more == rest
  {
    if [a] + more == [b] + rest {
      assert ([a] + more)[0] == a && ([a] + more)[1..] == more;
      assert ([b] + rest)[0] == b && ([b] + rest)[1..] == rest;
    }
  }

  lemma BackStep(t: Table, rest: seq<Table>)
    requires GoodTable(t) && (ReadTables(AllTexts(rest)) == Some(rest) <==> NoCommitLine(rest))
    ensures ReadTables(Texts(t) + AllTexts(rest)) == Some([t] + rest) <==> ["COMMIT"] !in t.lines && NoCommitLine(rest)
  {
    var n, texts := IndexOf(t.lines, ["COMMIT"]), Texts(t) + AllTexts(rest);
    ReadFirst(t, AllTexts(rest));
    assert t.lines[..n] == t.lines <==> n == |t.lines|;
    var tail := ReadTables(texts[n + 2..]);
    if tail.Some? {
      SameHead(Table(t.name, t.lines[..n]), tail.value, t, rest);
    }
  }

  lemma {:induction false} TablesBack(tables: seq<Table>)
    requires forall i | 0 <= i < |tables| :: GoodTable(tables[i])
    ensures ReadTables(AllTexts(tables)) == Some(tables) <==> NoCommitLine(tables)
  {
    if tables != [] {
      var t, rest := tables[0], tables[1..];
      TablesBack(rest);
      BackStep(t, rest);
      assert tables == [t] + rest;
      assert NoCommitLine(tables) <==> ["COMMIT"] !in t.lines && NoCommitLine(rest) by {
        assert forall i | 0 <= i < |rest| :: rest[i] == tables[i + 1];
      }
    }
  }

  /** The payload can be read back exactly if no line is the single token COMMIT. */
  lemma ReadBack(tables: seq<Table>)
    requires forall i | 0 <= i < |tables| :: GoodTable(tables[i])
    ensures ReadPayload(PayloadText(tables)) == Some(tables) <==> NoCommitLine(tables)
  {
    PayloadEnded(tables);
    SplitEnded(AllTexts(tables), '\n');
    assert (AllTexts(tables) + [""])[..|AllTexts(tables)|] == AllTexts(tables);
    TablesBack(tables);
  }

  /** Whatever the iteration orders, equal payloads come from equal maps. */
  lemma PayloadInjective(order: seq<string>, tr: map<string, seq<Line>>,
                         order1: seq<string>, tr1: map<string, seq<Line>>)
    requires (forall t :: t in order <==> t in tr) && (forall t :: t in order1 <==> t in tr1)
    requires forall i | 0 <= i < |order| :: GoodTable(InOrder(order, tr)[i]) && ["COMMIT"] !in tr[order[i]]
    requires forall i | 0 <= i < |order1| :: GoodTable(InOrder(order1, tr1)[i]) && ["COMMIT"] !in tr1[order1[i]]
    requires PayloadText(InOrder(order, tr)) == PayloadText(InOrder(order1, tr1))
    ensures tr == tr1 && order == order1
  {
    var a, b := InOrder(order, tr), InOrder(order1, tr1);
    ReadBack(a);
    ReadBack(b);
    assert a == b;
    forall i | 0 <= i < |order| ensures order[i] == order1[i] && tr[order[i]] == tr1[order1[i]] {
      assert a[i] == b[i];
    }
  }

  lemma ConfusingTexts()
    ensures Texts(Table("t", [["COMMIT"], ["*u"]])) == ["*t", "COMMIT", "*u", "COMMIT"]
    ensures GoodTable(Table("t", [["COMMIT"], ["*u"]]))
  {
    assert Pieces(["COMMIT"]) == ["COMMIT"] && Pieces(["*u"]) == ["*u"];
    assert Bodies([["COMMIT"], ["*u"]]) == ["COMMIT", "*u"];
    assert "*" + "t" == "*t";
  }

  lemma EmptyTexts(name: string)
    ensures Texts(Table(name, [])) == ["*" + name, "COMMIT"]
  {
    assert Bodies([]) == [];
  }

  lemma AllTextsTwo(t: Table, u: Table)
    ensures AllTexts([t]) == Texts(t) && AllTexts([t, u]) == Texts(t) + Texts(u)
  {
    assert [t][1..] == [] && [t, u][1..] == [u] && [u][1..] == [];
  }

  /** With a COMMIT line two different maps give the same payload. */
  lemma CommitLineConfuses()
    ensures PayloadText([Table("t", [["COMMIT"], ["*u"]])]) == PayloadText([Table("t", []), Table("u", [])])
  {
    var c, t, u := Table("t", [["COMMIT"], ["*u"]]), Table("t", []), Table("u", []);
    ConfusingTexts();
    EmptyTexts("t");
    EmptyTexts("u");
    assert "*" + "t" == "*t" && "*" + "u" == "*u";
    AllTextsTwo(c, c);
    AllTextsTwo(t, u);
    PayloadEnded([c]);
    PayloadEnded([t, u]);
  }
}
