/** The brace scanner of `read_header`, against the grammar of JSON text (RFC 8259,
    section 2 for structure and white space, section 4 for objects, section 7 for strings). */
module AsarHeader {
  import opened Options

  // -------------------------------------------------------------------- scanner

  datatype Mode = Mode(depth: int, inString: bool, escaped: bool)

  /** One turn of the scanner's loop body. */
  function Turn(m: Mode, c: char): Mode {
    if m.inString then
      if m.escaped then m.(escaped := false)
      else if c == '\\' then m.(escaped := true)
      else if c == '"' then m.(inString := false)
      else m
    else if c == '"' then m.(inString := true)
    else if c == '{' then m.(depth := m.depth + 1)
    else if c == '}' then m.(depth := m.depth - 1)
    else m
  }

  /** The character at which the scanner returns. */
  predicate Stops(m: Mode, c: char) {
    !m.inString && c == '}' && m.depth - 1 == 0
  }

  /** The end (exclusive) of the object the scanner finds, if it finds one. */
  function Scan(text: string, j: nat, m: Mode): Option<nat>
    requires j <= |text|
    decreases |text| - j
  {
    if j == |text| then None
    else if Stops(m, text[j]) then Some(j + 1)
    else Scan(text, j + 1, Turn(m, text[j]))
  }

  /** The loop of `read_header`, from the position of the opening brace on. */
  method FindObjectEnd(text: string, start: nat) returns (end: Option<nat>)
    requires start <= |text|
    ensures end == Scan(text, start, Mode(0, false, false))
  {
    var depth, inString, escaped := 0, false, false;
    for j := start to |text|
      invariant Scan(text, start, Mode(0, false, false)) == Scan(text, j, Mode(depth, inString, escaped))
    {
      var c := text[j];
      if inString {
        if escaped {
          escaped := false;
        } else if c == '\\' {
          escaped := true;
        } else if c == '"' {
          inString := false;
        }
      } else if c == '"' {
        inString := true;
      } else if c == '{' {
        depth := depth + 1;
      } else if c == '}' {
        depth := depth - 1;
        if depth == 0 {
          return Some(j + 1);
        }
      }
    }
    return None;
  }

  // -------------------------------------------------------------------- grammar

  /** A character of a string: unescaped, a two-character escape, or a \u escape. */
  datatype Piece = Plain(c: char) | Escape(c: char) | Unicode(h0: char, h1: char, h2: char, h3: char)

  predicate IsHex(c: char) { '0' <= c <= '9' || 'a' <= c <= 'f' || 'A' <= c <= 'F' }

  predicate LegalPiece(p: Piece) {
    match p
    case Plain(c) => c >= ' ' && c != '"' && c != '\\'
    case Escape(c) => c in {'"', '\\', '/', 'b', 'f', 'n', 'r', 't'}
    case Unicode(h0, h1, h2, h3) => IsHex(h0) && IsHex(h1) && IsHex(h2) && IsHex(h3)
  }

  function PrintPiece(p: Piece): string {
    match p
    case Plain(c) => [c]
    case Escape(c) => ['\\', c]
    case Unicode(h0, h1, h2, h3) => ['\\', 'u', h0, h1, h2, h3]
  }

  function PrintPieces(ps: seq<Piece>): string {
    if ps == [] then "" else PrintPiece(ps[0]) + PrintPieces(ps[1..])
  }

  function PrintString(ps: seq<Piece>): string { ['"'] + PrintPieces(ps) + ['"'] }

  /** A JSON value together with the white space it is printed with.  An atom is a number or
      one of `true`, `false`, `null`. */
  datatype Value =
    | Object(lead: string, members: Members)
    | Array(lead: string, items: Items)
    | Text(pieces: seq<Piece>)
    | Atom(text: string)
  datatype Members =
    | NoMember
    | Member(before: string, key: seq<Piece>, mid: string, gap: string, value: Value, after: string, rest: Members)
  datatype Items = NoItem | Item(before: string, value: Value, after: string, rest: Items)

  predicate IsSpace(s: string) { forall c :: c in s ==> c in {' ', '\t', '\n', '\r'} }

  predicate IsAtom(s: string) {
    forall c :: c in s ==> c in {'-', '+', '.'} || '0' <= c <= '9' || 'a' <= c <= 'z' || c == 'E'
  }

  predicate LegalPieces(ps: seq<Piece>) { forall p :: p in ps ==> LegalPiece(p) }

  predicate Legal(v: Value) {
    match v
    case Object(lead, members) => IsSpace(lead) && LegalMembers(members)
    case Array(lead, items) => IsSpace(lead) && LegalItems(items)
    case Text(pieces) => LegalPieces(pieces)
    case Atom(text) => IsAtom(text)
  }

  predicate LegalMembers(ms: Members) {
    match ms
    case NoMember => true
    case Member(before, key, mid, gap, value, after, rest) =>
      && IsSpace(before) && LegalPieces(key) && IsSpace(mid) && IsSpace(gap) && Legal(value) && IsSpace(after)
      && LegalMembers(rest)
  }

  predicate LegalItems(xs: Items) {
    match xs
    case NoItem => true
    case Item(before, value, after, rest) => IsSpace(before) && Legal(value) && IsSpace(after) && LegalItems(rest)
  }

  function Print(v: Value): string {
    match v
    case Object(lead, members) => ['{'] + (lead + PrintMembers(members)) + ['}']
    case Array(lead, items) => ['['] + (lead + PrintItems(items)) + [']']
    case Text(pieces) => PrintString(pieces)
    case Atom(text) => text
  }

  function PrintMembers(ms: Members): string {
    match ms
    case NoMember => ""
    case Member(before, key, mid, gap, value, after, rest) =>
      before + (PrintString(key) + (mid + ([':'] + (gap + (Print(value) + (after
      + ((if rest.NoMember? then "" else [',']) + PrintMembers(rest))))))))
  }

  function PrintItems(xs: Items): string {
    match xs
    case NoItem => ""
    case Item(before, value, after, rest) =>
      before + (Print(value) + (after + ((if rest.NoItem? then "" else [',']) + PrintItems(rest))))
  }

  /** Any text without control characters, quotes and backslashes is a legal string as it stands. */
  lemma {:induction false} PlainTextIsPrinted(text: string) returns (ps: seq<Piece>)
    requires forall i :: 0 <= i < |text| ==> text[i] >= ' ' && text[i] != '"' && text[i] != '\\'
    ensures LegalPieces(ps) && PrintPieces(ps) == text
  {
    if text == "" {
      ps := [];
    } else {
      var rest := PlainTextIsPrinted(text[1..]);
      ps := [Plain(text[0])] + rest;
      assert ps[1..] == rest && text == [text[0]] + text[1..];
    }
  }

  /** A string with every kind of piece, and how it is printed. */
  lemma SampleString()
    ensures var ps := [Plain('{'), Escape('"'), Unicode('0', '9', 'a', 'f'), Unicode('A', 'F', '7', 'c')];
            LegalPieces(ps) && PrintString(ps) == "\"{\\\"\\u09af\\uAF7c\""
  {
    var brace, quote := Plain('{'), Escape('"');
    var small, large := Unicode('0', '9', 'a', 'f'), Unicode('A', 'F', '7', 'c');
    assert [large][1..] == [] && PrintPieces([large]) == "\\uAF7c";
    assert [small, large][1..] == [large] && PrintPieces([small, large]) == "\\u09af\\uAF7c";
    assert [quote, small, large][1..] == [small, large];
    assert [brace, quote, small, large][1..] == [quote, small, large];
  }

  /** How arrays and objects are laid out: white space where it may stand, commas between. */
  lemma SampleArrays()
    ensures Print(Array("\t", Item(" ", Atom("1"), "\n", NoItem))) == "[\t 1\n]"
    ensures Print(Array("", Item("", Atom("1"), "", Item("", Atom("2"), "", NoItem)))) == "[1,2]"
  {
  }

  lemma SampleObject()
    ensures Print(Object("\t", Member(" ", [], "\t", "\n", Atom("1"), "\r", NoMember))) == "{\t \"\"\t:\n1\r}"
  {
    assert PrintString([]) == "\"\"";
    hide PrintString, PrintPieces;
  }

  lemma SampleMembers()
    ensures PrintMembers(Member("", [], "", "", Atom("1"), "", Member("", [], "", "", Atom("2"), "", NoMember)))
            == "\"\":1,\"\":2"
  {
    assert PrintString([]) == "\"\"";
    hide PrintString, PrintPieces;
    assert PrintMembers(Member("", [], "", "", Atom("2"), "", NoMember)) == "\"\":2";
  }

  /** The three names and everything written with the characters of a number are atoms. */
  lemma NamesAndNumbersAreAtoms(s: string)
    requires s in {"true", "false", "null"} || forall c :: c in s ==> c in "-+.eE0123456789"
    ensures IsAtom(s) && Legal(Atom(s))
  {
  }

  // ----------------------------------------------------- what the scanner sees

  /** The mode after all of `text`, or `None` if the scanner stops inside it. */
  function Through(text: string, m: Mode): Option<Mode> {
    if text == "" then Some(m)
    else if Stops(m, text[0]) then None
    else Through(text[1..], Turn(m, text[0]))
  }

  lemma {:induction false} ThroughConcat(a: string, b: string, m: Mode)
    ensures Through(a + b, m) == match Through(a, m) { case None => None case Some(n) => Through(b, n) }
  {
    if a == "" {
      assert a + b == b;
    } else {
      assert (a + b)[0] == a[0] && (a + b)[1..] == a[1..] + b;
      if !Stops(m, a[0]) {
        ThroughConcat(a[1..], b, Turn(m, a[0]));
      }
    }
  }

  lemma OneCharacter(c: char, m: Mode)
    requires !Stops(m, c)
    ensures Through([c], m) == Some(Turn(m, c))
  {
    assert [c][1..] == "";
  }

  /** `text` leaves the scanner in the mode it found it in, without a stop. */
  predicate Neutral(text: string, m: Mode) { Through(text, m) == Some(m) }

  lemma NeutralConcat(a: string, b: string, m: Mode)
    requires Neutral(a, m) && Neutral(b, m)
    ensures Neutral(a + b, m)
  {
    ThroughConcat(a, b, m);
  }

  /** Outside strings, text without quotes and braces is invisible to the scanner. */
  lemma {:induction false} PlainIsNeutral(text: string, depth: int)
    requires forall c :: c in text ==> c != '"' && c != '{' && c != '}'
    ensures Neutral(text, Mode(depth, false, false))
  {
    if text != "" {
      assert text[0] in text;
      assert forall c :: c in text[1..] ==> c in text;
      PlainIsNeutral(text[1..], depth);
    }
  }

  /** Inside a string, text without quotes and backslashes changes nothing. */
  lemma {:induction false} UnescapedIsNeutral(text: string, depth: int)
    requires forall c :: c in text ==> c != '"' && c != '\\'
    ensures Neutral(text, Mode(depth, true, false))
  {
    if text != "" {
      assert text[0] in text;
      assert forall c :: c in text[1..] ==> c in text;
      UnescapedIsNeutral(text[1..], depth);
    }
  }

  /** Nor does a backslash followed by any character at all. */
  lemma EscapeIsNeutral(c: char, depth: int)
    ensures Neutral(['\\', c], Mode(depth, true, false))
  {
    OneCharacter(c, Mode(depth, true, true));
    assert ['\\', c][1..] == [c];
  }

  lemma PieceIsNeutral(p: Piece, depth: int)
    requires LegalPiece(p)
    ensures Neutral(PrintPiece(p), Mode(depth, true, false))
  {
    match p
    case Plain(c) =>
      UnescapedIsNeutral([c], depth);
    case Escape(c) =>
      EscapeIsNeutral(c, depth);
    case Unicode(h0, h1, h2, h3) =>
      EscapeIsNeutral('u', depth);
      UnescapedIsNeutral([h0, h1, h2, h3], depth);
      NeutralConcat(['\\', 'u'], [h0, h1, h2, h3], Mode(depth, true, false));
      assert PrintPiece(p) == ['\\', 'u'] + [h0, h1, h2, h3];
  }

  lemma {:induction false} PiecesAreNeutral(ps: seq<Piece>, depth: int)
    requires LegalPieces(ps)
    ensures Neutral(PrintPieces(ps), Mode(depth, true, false))
  {
    if ps != [] {
      assert ps[0] in ps;
      assert forall p :: p in ps[1..] ==> p in ps;
      PieceIsNeutral(ps[0], depth);
      PiecesAreNeutral(ps[1..], depth);
      NeutralConcat(PrintPiece(ps[0]), PrintPieces(ps[1..]), Mode(depth, true, false));
    }
  }

  /** Braces, quotes and backslashes inside a string never move the scanner's depth. */
  lemma StringIsNeutral(ps: seq<Piece>, depth: int)
    requires LegalPieces(ps)
    ensures Neutral(PrintString(ps), Mode(depth, false, false))
  {
    var outside, inside := Mode(depth, false, false), Mode(depth, true, false);
    PiecesAreNeutral(ps, depth);
    OneCharacter('"', outside);
    OneCharacter('"', inside);
    ThroughConcat(['"'], PrintPieces(ps), outside);
    ThroughConcat(['"'] + PrintPieces(ps), ['"'], outside);
  }

  /** Inside an enclosing object, a whole value leaves the scanner where it was. */
  lemma {:induction false} ValueIsNeutral(v: Value, depth: int)
    requires Legal(v) && depth >= 1
    ensures Neutral(Print(v), Mode(depth, false, false))
    decreases v
  {
    var m := Mode(depth, false, false);
    match v
    case Object(lead, members) =>
      var inner := Mode(depth + 1, false, false);
      PlainIsNeutral(lead, depth + 1);
      MembersAreNeutral(members, depth + 1);
      NeutralConcat(lead, PrintMembers(members), inner);
      OneCharacter('{', m);
      OneCharacter('}', inner);
      ThroughConcat(['{'], lead + PrintMembers(members), m);
      ThroughConcat(['{'] + (lead + PrintMembers(members)), ['}'], m);
    case Array(lead, items) =>
      PlainIsNeutral(['['], depth);
      PlainIsNeutral(lead, depth);
      ItemsAreNeutral(items, depth);
      PlainIsNeutral([']'], depth);
      NeutralConcat(lead, PrintItems(items), m);
      NeutralConcat(['['], lead + PrintItems(items), m);
      NeutralConcat(['['] + (lead + PrintItems(items)), [']'], m);
    case Text(pieces) =>
      StringIsNeutral(pieces, depth);
    case Atom(text) =>
      PlainIsNeutral(text, depth);
  }

  lemma {:induction false} MembersAreNeutral(ms: Members, depth: int)
    requires LegalMembers(ms) && depth >= 1
    ensures Neutral(PrintMembers(ms), Mode(depth, false, false))
    decreases ms
  {
    var m := Mode(depth, false, false);
    match ms
    case NoMember =>
    case Member(before, key, mid, gap, value, after, rest) =>
      PlainIsNeutral(before, depth);
      StringIsNeutral(key, depth);
      PlainIsNeutral(mid, depth);
      PlainIsNeutral([':'], depth);
      PlainIsNeutral(gap, depth);
      ValueIsNeutral(value, depth);
      PlainIsNeutral(after, depth);
      var comma := if rest.NoMember? then "" else [','];
      PlainIsNeutral(comma, depth);
      MembersAreNeutral(rest, depth);
      hide Neutral;
      var t := PrintMembers(rest);
      NeutralConcat(comma, t, m);
      NeutralConcat(after, comma + t, m);
      NeutralConcat(Print(value), after + (comma + t), m);
      NeutralConcat(gap, Print(value) + (after + (comma + t)), m);
      NeutralConcat([':'], gap + (Print(value) + (after + (comma + t))), m);
      NeutralConcat(mid, [':'] + (gap + (Print(value) + (after + (comma + t)))), m);
      NeutralConcat(PrintString(key), mid + ([':'] + (gap + (Print(value) + (after + (comma + t))))), m);
      NeutralConcat(before, PrintString(key) + (mid + ([':'] + (gap + (Print(value) + (after + (comma + t)))))), m);
  }

  lemma {:induction false} ItemsAreNeutral(xs: Items, depth: int)
    requires LegalItems(xs) && depth >= 1
    ensures Neutral(PrintItems(xs), Mode(depth, false, false))
    decreases xs
  {
    var m := Mode(depth, false, false);
    match xs
    case NoItem =>
    case Item(before, value, after, rest) =>
      PlainIsNeutral(before, depth);
      ValueIsNeutral(value, depth);
      PlainIsNeutral(after, depth);
      var comma := if rest.NoItem? then "" else [','];
      PlainIsNeutral(comma, depth);
      ItemsAreNeutral(rest, depth);
      hide Neutral;
      var t := PrintItems(rest);
      NeutralConcat(comma, t, m);
      NeutralConcat(after, comma + t, m);
      NeutralConcat(Print(value), after + (comma + t), m);
      NeutralConcat(before, Print(value) + (after + (comma + t)), m);
  }

  // ----------------------------------------------------------------- main result

  lemma {:induction false} ScanPasses(pre: string, text: string, post: string, m: Mode)
    requires Through(text, m).Some?
    ensures Scan(pre + text + post, |pre|, m) == Scan(pre + text + post, |pre| + |text|, Through(text, m).value)
    decreases |text|
  {
    if text != "" {
      var all := pre + text + post;
      assert all[|pre|] == text[0];
      var pre', text' := pre + [text[0]], text[1..];
      assert all == pre' + text' + post;
      ScanPasses(pre', text', post, Turn(m, text[0]));
    }
  }

  /** Up to its closing brace, a printed object runs the scanner to depth one. */
  lemma ObjectBody(v: Value)
    requires Legal(v) && v.Object?
    ensures |Print(v)| > 0 && Print(v)[|Print(v)| - 1] == '}'
    ensures Through(Print(v)[..|Print(v)| - 1], Mode(0, false, false)) == Some(Mode(1, false, false))
  {
    var body := v.lead + PrintMembers(v.members);
    PlainIsNeutral(v.lead, 1);
    MembersAreNeutral(v.members, 1);
    NeutralConcat(v.lead, PrintMembers(v.members), Mode(1, false, false));
    OneCharacter('{', Mode(0, false, false));
    ThroughConcat(['{'], body, Mode(0, false, false));
    assert Print(v)[..|Print(v)| - 1] == ['{'] + body;
  }

  /** Started at the opening brace of any printed JSON object, the scanner stops exactly at
      its matching brace, whatever its strings contain and whatever follows. */
  lemma ScannerFindsTheObject(pre: string, v: Value, post: string)
    requires Legal(v) && v.Object?
    ensures Scan(pre + Print(v) + post, |pre|, Mode(0, false, false)) == Some(|pre| + |Print(v)|)
  {
    ObjectBody(v);
    var text := Print(v);
    var most := text[..|text| - 1];
    var all := pre + text + post;
    assert all == pre + most + (['}'] + post);
    ScanPasses(pre, most, ['}'] + post, Mode(0, false, false));
    assert all[|pre| + |most|] == '}';
  }

  /** A header cut off before its last brace yields nothing. */
  lemma TruncatedObjectIsRejected(pre: string, v: Value, n: nat)
    requires Legal(v) && v.Object? && n < |Print(v)|
    ensures Scan(pre + Print(v)[..n], |pre|, Mode(0, false, false)) == None
  {
    ObjectBody(v);
    var most := Print(v)[..|Print(v)| - 1];
    assert most == most[..n] + most[n..] && Print(v)[..n] == most[..n];
    ThroughConcat(most[..n], most[n..], Mode(0, false, false));
    ScanPasses(pre, most[..n], "", Mode(0, false, false));
    assert pre + most[..n] + "" == pre + Print(v)[..n];
  }
}
