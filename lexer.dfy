/** The character-level scanner (src/lexer.cpp).

    The pure functions below say what each scanning routine does to the
    scanner's position and line counter; the class `Lexer` holds those two
    fields and its methods, written with the source's loops, are proved to
    agree with the functions. A thrown error is a `Fail` carrying the
    message and the state the scanner was left in. */
module Lex {
  import opened Wrappers
  import opened Decimal
  import opened Tokens

  datatype LexState = LexState(pos: nat, line: int)

  /** The outcome of a scanning routine: a value, or an error message, each
      with the scanner state afterwards. */
  datatype Step<T> = Done(value: T, st: LexState) | Fail(msg: string, st: LexState)

  /** The beginnings of the scanner's error messages. */
  const UnterminatedComment := "Unterminated comment starting at line "
  const UnterminatedString := "Unterminated string literal at line "
  const InvalidCharacter := "Invalid character '"

  /** currentChar: the character at pos, or '\0' past the end. */
  function CharAt(text: string, pos: nat): char
  {
    if pos < |text| then text[pos] else '\0'
  }

  /** The number of newline characters in s. */
  function Newlines(s: string): nat
  {
    if s == [] then 0 else Newlines(s[..|s| - 1]) + (if s[|s| - 1] == '\n' then 1 else 0)
  }

  /** The scanner invariant: the position is within the text and the line
      counter is one more than the newlines before it. */
  predicate Consistent(text: string, st: LexState)
  {
    st.pos <= |text| && st.line == 1 + Newlines(text[..st.pos])
  }

  predicate IsWordChar(c: char) { IsAlnum(c) || c == '_' }

  /** Where a line comment whose text starts at p ends: at the next newline,
      which is left for the whitespace rule, or at the end of the text. */
  function LineCommentEnd(text: string, p: nat): (e: nat)
    requires p <= |text|
    ensures p <= e <= |text| && (e == |text| || text[e] == '\n')
    ensures forall i | p <= i < e :: text[i] != '\n'
    decreases |text| - p
  {
    if p < |text| && text[p] != '\n' then LineCommentEnd(text, p + 1) else p
  }

  datatype Comment = Comment(closed: bool, st: LexState)

  /** The scan of a block comment whose text starts at p: it looks for a '*' followed
      by '/' while at least two characters remain, counting each newline it steps
      over; if none is found it stops before the last character. */
  function BlockComment(text: string, p: nat, line: int): (c: Comment)
    requires p <= |text|
    ensures p <= c.st.pos <= |text| && c.st.line >= line
    ensures c.closed ==> c.st.pos >= p + 2 && text[c.st.pos - 2] == '*' && text[c.st.pos - 1] == '/'
    ensures !c.closed ==> c.st.pos + 1 >= |text|
    decreases |text| - p
  {
    if p + 1 < |text| then
      var l := if text[p] == '\n' then line + 1 else line;
      if text[p] == '*' && text[p + 1] == '/' then Comment(true, LexState(p + 2, l))
      else BlockComment(text, p + 1, l)
    else Comment(false, LexState(p, line))
  }

  /** A comment starts at pos. */
  predicate CommentAt(text: string, pos: nat)
  {
    pos + 1 < |text| && text[pos] == '/' && (text[pos + 1] == '/' || text[pos + 1] == '*')
  }

  /** skipWhitespaceAndComments. On success the scanner stops at the end or
      at a character that neither is whitespace nor starts a comment; the
      only failure is an unterminated block comment. */
  function Skip(text: string, st: LexState): (r: Step<()>)
    requires st.pos <= |text|
    ensures st.pos <= r.st.pos <= |text| && r.st.line >= st.line
    ensures r.Done? ==> r.st.pos == |text| || (!IsSpace(text[r.st.pos]) && !CommentAt(text, r.st.pos))
    ensures r.Fail? ==> r.st.pos + 1 >= |text|
    decreases |text| - st.pos
  {
    var pos, line := st.pos, st.line;
    if pos >= |text| then Done((), st)
    else
      var c := text[pos];
      if IsSpace(c) then Skip(text, LexState(pos + 1, if c == '\n' then line + 1 else line))
      else if c == '/' && pos + 1 < |text| && text[pos + 1] == '/' then
        Skip(text, LexState(LineCommentEnd(text, pos + 2), line))
      else if c == '/' && pos + 1 < |text| && text[pos + 1] == '*' then
        var b := BlockComment(text, pos + 2, line);
        if b.closed then Skip(text, b.st)
        else Fail(UnterminatedComment + IntToString(b.st.line), b.st)
      else Done((), st)
  }

  /** number(): the end of the run of digits starting at p. */
  function DigitsEnd(text: string, p: nat): (e: nat)
    requires p <= |text|
    ensures p <= e <= |text| && (e == |text| || !IsDigit(text[e]))
    ensures forall i | p <= i < e :: IsDigit(text[i])
    decreases |text| - p
  {
    if p < |text| && IsDigit(text[p]) then DigitsEnd(text, p + 1) else p
  }

  /** identifier(): the end of the run of letters, digits and '_' from p. */
  function WordEnd(text: string, p: nat): (e: nat)
    requires p <= |text|
    ensures p <= e <= |text| && (e == |text| || !IsWordChar(text[e]))
    ensures forall i | p <= i < e :: IsWordChar(text[i])
    decreases |text| - p
  {
    if p < |text| && IsWordChar(text[p]) then WordEnd(text, p + 1) else p
  }

  /** The body scan of stringLiteral(): up to the next '"' or '\0' (or the
      end of the text), counting the newlines stepped over. */
  function StringEnd(text: string, p: nat, line: int): (r: LexState)
    requires p <= |text|
    ensures p <= r.pos <= |text| && r.line >= line
    ensures forall i | p <= i < r.pos :: text[i] != '"' && text[i] != '\0'
    ensures CharAt(text, r.pos) == '"' || CharAt(text, r.pos) == '\0'
    decreases |text| - p
  {
    if p < |text| && text[p] != '"' && text[p] != '\0' then
      StringEnd(text, p + 1, if text[p] == '\n' then line + 1 else line)
    else LexState(p, line)
  }

  /** The single-character tokens. */
  function SingleCharKind(c: char): Option<TokenType>
  {
    match c
    case '+' => Some(PLUS)
    case '-' => Some(MINUS)
    case '*' => Some(STAR)
    case '/' => Some(SLASH)
    case '=' => Some(ASSIGN)
    case '(' => Some(LPAREN)
    case ')' => Some(RPAREN)
    case ';' => Some(SEMICOLON)
    case _ => None
  }

  /** The keyword an identifier spells, if any. */
  function WordKind(id: string): TokenType
  {
    if id == "cout" then COUT else if id == "cin" then CIN else IDENTIFIER
  }

  /** getNextToken after whitespace and comments were skipped. A string
      token carries the line of its opening quote. */
  function Scan(text: string, s: LexState): Step<Token>
    requires s.pos <= |text|
  {
    var c := CharAt(text, s.pos);
    if c == '\0' then Done(Token(END, "", s.line), s)
    else if IsDigit(c) then
      var e := DigitsEnd(text, s.pos);
      Done(Token(NUMBER, text[s.pos..e], s.line), LexState(e, s.line))
    else if IsAlpha(c) || c == '_' then
      var e := WordEnd(text, s.pos);
      Done(Token(WordKind(text[s.pos..e]), text[s.pos..e], s.line), LexState(e, s.line))
    else if c == '"' then
      var r := StringEnd(text, s.pos + 1, s.line);
      if CharAt(text, r.pos) == '"' then
        Done(Token(STRING, text[s.pos + 1..r.pos], s.line), LexState(r.pos + 1, r.line))
      else Fail(UnterminatedString + IntToString(r.line), r)
    else
      var after := LexState(s.pos + 1, s.line);
      match SingleCharKind(c)
      case Some(k) => Done(Token(k, [c], s.line), after)
      case None => Fail(InvalidCharacter + [c] + "' at line " + IntToString(s.line), after)
  }

  /** getNextToken. */
  function Next(text: string, st: LexState): (r: Step<Token>)
    requires st.pos <= |text|
  {
    match Skip(text, st)
    case Fail(m, s) => Fail(m, s)
    case Done(_, s) => Scan(text, s)
  }

  // ---------------------------------------------------------------------
  // Position and line

  /** Every call leaves the position within the text and never moves it or
      the line counter back; a token other than END, and every error, moves
      the position forward. */
  lemma NextProgress(text: string, st: LexState)
    requires st.pos <= |text|
    ensures var r := Next(text, st);
      st.pos <= r.st.pos <= |text| && r.st.line >= st.line &&
      (r.Fail? || r.value.kind != END ==> r.st.pos > st.pos)
  {
    var sk := Skip(text, st);
    if sk.Fail? {
      // the comment opener was consumed
      assert sk.st.pos >= st.pos + 2 by { SkipFailAdvances(text, st); }
    }
  }

  lemma {:induction false} SkipFailAdvances(text: string, st: LexState)
    requires st.pos <= |text|
    requires Skip(text, st).Fail?
    ensures Skip(text, st).st.pos >= st.pos + 2
    ensures Skip(text, st).msg == UnterminatedComment + IntToString(Skip(text, st).st.line)
    decreases |text| - st.pos
  {
    var pos, line := st.pos, st.line;
    var c := text[pos];
    if IsSpace(c) {
      SkipSpaceStep(text, st);
      SkipFailAdvances(text, LexState(pos + 1, if c == '\n' then line + 1 else line));
    } else if c == '/' && pos + 1 < |text| && text[pos + 1] == '/' {
      SkipLineCommentStep(text, st);
      SkipFailAdvances(text, LexState(LineCommentEnd(text, pos + 2), line));
    } else {
      var b := BlockComment(text, pos + 2, line);
      if b.closed {
        SkipBlockCommentStep(text, st);
        SkipFailAdvances(text, b.st);
      } else {
        SkipUnclosedStep(text, st);
      }
    }
  }

  /** Once END is returned the scanner stays put and returns END again. */
  lemma EndIsStable(text: string, st: LexState)
    requires st.pos <= |text|
    requires Next(text, st).Done? && Next(text, st).value.kind == END
    ensures Next(text, Next(text, st).st) == Next(text, st)
  {
    var s := Skip(text, st).st;
    assert Skip(text, s) == Done((), s);
  }

  /** When nothing but whitespace and comments is left, getNextToken
      returns END with the current line. */
  lemma EndWhenExhausted(text: string, st: LexState)
    requires st.pos <= |text|
    requires Skip(text, st).Done? && Skip(text, st).st.pos == |text|
    ensures Next(text, st) == Done(Token(END, "", Skip(text, st).st.line), Skip(text, st).st)
  {
  }

  lemma NewlinesStep(text: string, p: nat)
    requires p < |text|
    ensures Newlines(text[..p + 1]) == Newlines(text[..p]) + (if text[p] == '\n' then 1 else 0)
  {
    assert text[..p + 1][..p] == text[..p];
  }

  lemma {:induction false} NewlinesNone(text: string, p: nat, e: nat)
    requires p <= e <= |text|
    requires forall i | p <= i < e :: text[i] != '\n'
    ensures Newlines(text[..e]) == Newlines(text[..p])
    decreases e - p
  {
    if p < e {
      NewlinesNone(text, p, e - 1);
      NewlinesStep(text, e - 1);
    }
  }

  lemma {:induction false} BlockCommentConsistent(text: string, p: nat, line: int)
    requires p <= |text| && line == 1 + Newlines(text[..p])
    ensures Consistent(text, BlockComment(text, p, line).st)
    decreases |text| - p
  {
    if p + 1 < |text| {
      NewlinesStep(text, p);
      var l := if text[p] == '\n' then line + 1 else line;
      if text[p] == '*' && text[p + 1] == '/' {
        NewlinesStep(text, p + 1);
      } else {
        BlockCommentConsistent(text, p + 1, l);
      }
    }
  }

  lemma {:induction false} StringEndConsistent(text: string, p: nat, line: int)
    requires p <= |text| && line == 1 + Newlines(text[..p])
    ensures Consistent(text, StringEnd(text, p, line))
    decreases |text| - p
  {
    if p < |text| && text[p] != '"' && text[p] != '\0' {
      NewlinesStep(text, p);
      StringEndConsistent(text, p + 1, if text[p] == '\n' then line + 1 else line);
    }
  }

  lemma {:induction false} SkipConsistent(text: string, st: LexState)
    requires Consistent(text, st)
    ensures Consistent(text, Skip(text, st).st)
    decreases |text| - st.pos, 1
  {
    var pos, line := st.pos, st.line;
    if pos < |text| {
      var c := text[pos];
      if IsSpace(c) {
        NewlinesStep(text, pos);
        SkipSpaceStep(text, st);
        SkipConsistent(text, LexState(pos + 1, if c == '\n' then line + 1 else line));
      } else if c == '/' && pos + 1 < |text| && text[pos + 1] == '/' {
        NewlinesNone(text, pos, LineCommentEnd(text, pos + 2));
        SkipLineCommentStep(text, st);
        SkipConsistent(text, LexState(LineCommentEnd(text, pos + 2), line));
      } else if c == '/' && pos + 1 < |text| && text[pos + 1] == '*' {
        BlockSkipConsistent(text, st);
      }
    }
  }

  /** The block-comment case of `SkipConsistent`. */
  lemma {:induction false} BlockSkipConsistent(text: string, st: LexState)
    requires Consistent(text, st)
    requires st.pos + 1 < |text| && text[st.pos] == '/' && text[st.pos + 1] == '*'
    ensures Consistent(text, Skip(text, st).st)
    decreases |text| - st.pos, 0
  {
    NewlinesNone(text, st.pos, st.pos + 2);
    BlockCommentConsistent(text, st.pos + 2, st.line);
    var b := BlockComment(text, st.pos + 2, st.line);
    if b.closed {
      SkipBlockCommentStep(text, st);
      SkipConsistent(text, b.st);
    } else {
      SkipUnclosedStep(text, st);
    }
  }

  /** The line counter always equals one plus the number of newlines before
      the position, after a token and after an error alike: whitespace,
      block comments and string literals count every newline they consume. */
  lemma NextConsistent(text: string, st: LexState)
    requires Consistent(text, st)
    ensures Consistent(text, Next(text, st).st)
  {
    SkipConsistent(text, st);
    if Skip(text, st).Done? {
      ScanConsistent(text, Skip(text, st).st);
    }
  }

  /** The scan of one token after skipping keeps the line counter right. */
  lemma ScanConsistent(text: string, s: LexState)
    requires Consistent(text, s) && (s.pos == |text| || !IsSpace(text[s.pos]))
    ensures Consistent(text, Scan(text, s).st)
  {
    var c := CharAt(text, s.pos);
    if c == '\0' {
    } else if IsDigit(c) {
      NewlinesNone(text, s.pos, DigitsEnd(text, s.pos));
    } else if IsAlpha(c) || c == '_' {
      NewlinesNone(text, s.pos, WordEnd(text, s.pos));
    } else if c == '"' {
      StringScanConsistent(text, s);
    } else {
      NewlinesStep(text, s.pos);
    }
  }

  /** A string literal counts the newlines in its body. */
  lemma StringScanConsistent(text: string, s: LexState)
    requires Consistent(text, s) && s.pos < |text| && text[s.pos] == '"'
    ensures Consistent(text, Scan(text, s).st)
  {
    NewlinesStep(text, s.pos);
    StringEndConsistent(text, s.pos + 1, s.line);
    var r := StringEnd(text, s.pos + 1, s.line);
    if CharAt(text, r.pos) == '"' {
      NewlinesStep(text, r.pos);
    }
  }

  // ---------------------------------------------------------------------
  // The tokens

  /** A NUMBER token is the maximal non-empty run of digits where scanning
      resumed. */
  lemma NumberToken(text: string, st: LexState)
    requires st.pos <= |text|
    requires Skip(text, st).Done? && IsDigit(CharAt(text, Skip(text, st).st.pos))
    ensures var s, r := Skip(text, st).st, Next(text, st);
      r.Done? && r.value.kind == NUMBER && r.value.line == s.line &&
      r.value.value == text[s.pos..r.st.pos] && |r.value.value| >= 1 && AllDigits(r.value.value) &&
      (r.st.pos == |text| || !IsDigit(text[r.st.pos])) && r.st.line == s.line
  {
    var s := Skip(text, st).st;
    var e := DigitsEnd(text, s.pos);
    assert forall i | 0 <= i < e - s.pos :: text[s.pos..e][i] == text[s.pos + i];
  }

  /** An identifier starts with a letter or '_' and is the maximal run of
      letters, digits and '_'; exactly "cout" and "cin" are keywords. */
  lemma WordToken(text: string, st: LexState)
    requires st.pos <= |text|
    requires Skip(text, st).Done?
    requires var c := CharAt(text, Skip(text, st).st.pos); IsAlpha(c) || c == '_'
    ensures var s, r := Skip(text, st).st, Next(text, st);
      r.Done? && r.value.value == text[s.pos..r.st.pos] && |r.value.value| >= 1 &&
      (forall i | 0 <= i < |r.value.value| :: IsWordChar(r.value.value[i])) &&
      (r.st.pos == |text| || !IsWordChar(text[r.st.pos])) &&
      (r.value.kind == COUT <==> r.value.value == "cout") &&
      (r.value.kind == CIN <==> r.value.value == "cin") &&
      (r.value.kind == IDENTIFIER <==> r.value.value != "cout" && r.value.value != "cin")
  {
    var s := Skip(text, st).st;
    var e := WordEnd(text, s.pos);
    assert forall i | 0 <= i < e - s.pos :: text[s.pos..e][i] == text[s.pos + i];
  }

  /** A string token holds the characters between the quotes, unprocessed;
      without a closing quote (before the end or a '\0') it is an error
      reporting the line reached. */
  lemma StringToken(text: string, st: LexState)
    requires st.pos <= |text|
    requires Skip(text, st).Done? && CharAt(text, Skip(text, st).st.pos) == '"'
    ensures var s, r := Skip(text, st).st, Next(text, st);
      (r.Done? ==>
        r.value.kind == STRING && r.value.line == s.line &&
        r.st.pos >= s.pos + 2 && text[r.st.pos - 1] == '"' &&
        r.value.value == text[s.pos + 1..r.st.pos - 1] &&
        (forall i | 0 <= i < |r.value.value| :: r.value.value[i] != '"')) &&
      (r.Fail? ==> r.msg == UnterminatedString + IntToString(r.st.line) &&
                   (r.st.pos == |text| || text[r.st.pos] == '\0'))
  {
    StringScan(text, Skip(text, st).st);
  }

  /** The string case of `Scan`. */
  lemma StringScan(text: string, s: LexState)
    requires s.pos <= |text| && CharAt(text, s.pos) == '"'
    ensures var r := Scan(text, s);
      (r.Done? ==>
        r.value.kind == STRING && r.value.line == s.line &&
        r.st.pos >= s.pos + 2 && text[r.st.pos - 1] == '"' &&
        r.value.value == text[s.pos + 1..r.st.pos - 1] &&
        (forall i | 0 <= i < |r.value.value| :: r.value.value[i] != '"')) &&
      (r.Fail? ==> r.msg == UnterminatedString + IntToString(r.st.line) &&
                   (r.st.pos == |text| || text[r.st.pos] == '\0'))
  {
    var e := StringEnd(text, s.pos + 1, s.line);
    assert forall i | s.pos + 1 <= i < e.pos :: text[s.pos + 1..e.pos][i - (s.pos + 1)] == text[i];
  }

  /** Exactly the eight characters + - * / = ( ) ; are single-character
      tokens, carrying the character itself; any other character that
      starts no token is an error, and is consumed. */
  lemma SingleCharTokens(text: string, st: LexState)
    requires st.pos <= |text|
    requires Skip(text, st).Done?
    requires var c := CharAt(text, Skip(text, st).st.pos);
      c != '\0' && !IsDigit(c) && !IsAlpha(c) && c != '_' && c != '"'
    ensures var s, r := Skip(text, st).st, Next(text, st);
      var c := text[s.pos];
      r.st == LexState(s.pos + 1, s.line) &&
      (c in "+-*/=();" <==> r.Done?) &&
      (r.Done? ==> r.value == Token(SingleCharKind(c).value, [c], s.line)) &&
      (r.Fail? ==> r.msg == InvalidCharacter + [c] + "' at line " + IntToString(s.line))
  {
  }

  /** An operator token carries its own character as its text. */
  predicate OperatorText(t: Token)
  {
    (t.kind == PLUS ==> t.value == "+") && (t.kind == MINUS ==> t.value == "-") &&
    (t.kind == STAR ==> t.value == "*") && (t.kind == SLASH ==> t.value == "/")
  }

  lemma NextOperatorText(text: string, st: LexState)
    requires st.pos <= |text|
    ensures Next(text, st).Done? ==> OperatorText(Next(text, st).value)
  {
  }

  /** A line comment is skipped up to the end of its line, and a block
      comment that is never closed is an error. */
  lemma Comments(text: string, st: LexState)
    requires st.pos + 1 < |text| && text[st.pos] == '/'
    ensures text[st.pos + 1] == '/' ==>
      Skip(text, st) == Skip(text, LexState(LineCommentEnd(text, st.pos + 2), st.line))
    ensures text[st.pos + 1] == '*' && !BlockComment(text, st.pos + 2, st.line).closed ==>
      Skip(text, st).Fail?
  {
  }

  /** The message of an unterminated block comment reports the line the scan
      reached, not the line where the comment opened. */
  lemma UnterminatedCommentLine()
    ensures Next("/*\nx", LexState(0, 1)) == Fail(UnterminatedComment + "2", LexState(3, 2))
  {
    var text := "/*\nx";
    assert BlockComment(text, 3, 2) == Comment(false, LexState(3, 2));
    assert BlockComment(text, 2, 1) == Comment(false, LexState(3, 2));
    assert IntToString(2) == "2";
  }

  /** One step of the skipping loop over a whitespace character. */
  lemma SkipSpaceStep(text: string, st: LexState)
    requires st.pos < |text| && IsSpace(text[st.pos])
    ensures Skip(text, st) ==
      Skip(text, LexState(st.pos + 1, if text[st.pos] == '\n' then st.line + 1 else st.line))
  {
  }

  /** One step of the skipping loop over a line comment. */
  lemma SkipLineCommentStep(text: string, st: LexState)
    requires st.pos + 1 < |text| && text[st.pos] == '/' && text[st.pos + 1] == '/'
    ensures Skip(text, st) == Skip(text, LexState(LineCommentEnd(text, st.pos + 2), st.line))
  {
  }

  /** One step of the skipping loop over a closed block comment. */
  lemma SkipBlockCommentStep(text: string, st: LexState)
    requires st.pos + 1 < |text| && text[st.pos] == '/' && text[st.pos + 1] == '*'
    requires BlockComment(text, st.pos + 2, st.line).closed
    ensures Skip(text, st) == Skip(text, BlockComment(text, st.pos + 2, st.line).st)
  {
  }

  /** The skipping loop fails on a block comment that is never closed. */
  lemma SkipUnclosedStep(text: string, st: LexState)
    requires st.pos + 1 < |text| && text[st.pos] == '/' && text[st.pos + 1] == '*'
    requires !BlockComment(text, st.pos + 2, st.line).closed
    ensures var b := BlockComment(text, st.pos + 2, st.line);
      Skip(text, st) == Fail(UnterminatedComment + IntToString(b.st.line), b.st)
  {
    assert !IsSpace(text[st.pos]);
  }

  /** The skipping loop stops at a character that is neither whitespace nor
      the start of a comment. */
  lemma SkipStops(text: string, st: LexState)
    requires st.pos < |text| && !IsSpace(text[st.pos]) && !CommentAt(text, st.pos)
    ensures Skip(text, st) == Done((), st)
  {
  }

  // ---------------------------------------------------------------------
  // The scanner as the source runs it

  class Lexer {
    const text: string
    var pos: nat
    var line: int

    constructor (text: string)
      ensures this.text == text && pos == 0 && line == 1
    {
      this.text := text;
      pos := 0;
      line := 1;
    }

    function State(): LexState
      reads this
    {
      LexState(pos, line)
    }

    ghost predicate Valid()
      reads this
    {
      pos <= |text|
    }

    method CurrentChar() returns (c: char)
      ensures c == CharAt(text, pos)
    {
      c := if pos < |text| then text[pos] else '\0';
    }

    /** The body of a line comment: up to, not past, the next newline. */
    method SkipLineComment()
      requires Valid()
      modifies this
      ensures Valid() && pos == LineCommentEnd(text, old(pos)) && line == old(line)
    {
      while pos < |text| && text[pos] != '\n'
        invariant old(pos) <= pos <= |text| && line == old(line)
        invariant LineCommentEnd(text, pos) == LineCommentEnd(text, old(pos))
        decreases |text| - pos
      {
        pos := pos + 1;
      }
    }

    /** The body of a block comment, from just after its opener. */
    method SkipBlockComment() returns (closed: bool)
      requires Valid()
      modifies this
      ensures Valid() && BlockComment(text, old(pos), old(line)) == Comment(closed, State())
    {
      closed := false;
      while pos + 1 < |text|
        invariant pos <= |text|
        invariant BlockComment(text, pos, line) == BlockComment(text, old(pos), old(line))
        decreases |text| - pos
      {
        if text[pos] == '\n' { line := line + 1; }
        if text[pos] == '*' && text[pos + 1] == '/' {
          pos := pos + 2;
          closed := true;
          return;
        }
        pos := pos + 1;
      }
    }

    /** One comment of the skipping loop, its opener at pos: a line comment
        is skipped to its end of line, a block comment past its closing mark, and a
        block comment never closed is an error. */
    method SkipComment() returns (err: Option<string>)
      requires Valid() && CommentAt(text, pos)
      modifies this
      ensures Valid()
      ensures err.None? ==> pos > old(pos) && Skip(text, old(State())) == Skip(text, State())
      ensures err.Some? ==> Skip(text, old(State())) == Fail(err.value, State())
    {
      ghost var before := State();
      if text[pos + 1] == '/' {
        pos := pos + 2;
        SkipLineComment();
        SkipLineCommentStep(text, before);
        return None;
      }
      pos := pos + 2;
      var closed := SkipBlockComment();
      if !closed {
        SkipUnclosedStep(text, before);
        return Some(UnterminatedComment + IntToString(line));
      }
      SkipBlockCommentStep(text, before);
      return None;
    }

    method SkipWhitespaceAndComments() returns (err: Option<string>)
      requires Valid()
      modifies this
      ensures Valid()
      ensures Skip(text, old(State())) == (if err.Some? then Fail(err.value, State()) else Done((), State()))
    {
      while pos < |text|
        invariant Valid()
        invariant Skip(text, old(State())) == Skip(text, State())
        decreases |text| - pos
      {
        ghost var before := State();
        var c := text[pos];
        if IsSpace(c) {
          if c == '\n' { line := line + 1; }
          pos := pos + 1;
          SkipSpaceStep(text, before);
          continue;
        }
        if c == '/' && pos + 1 < |text| && (text[pos + 1] == '/' || text[pos + 1] == '*') {
          err := SkipComment();
          if err.Some? {
            return;
          }
          continue;
        }
        SkipStops(text, before);
        break;
      }
      return None;
    }

    method Number() returns (result: string)
      requires Valid()
      modifies this
      ensures Valid() && line == old(line)
      ensures pos == DigitsEnd(text, old(pos)) && result == text[old(pos)..pos]
    {
      result := "";
      var c := CurrentChar();
      while IsDigit(c)
        invariant old(pos) <= pos <= |text| && line == old(line)
        invariant DigitsEnd(text, pos) == DigitsEnd(text, old(pos))
        invariant result == text[old(pos)..pos] && c == CharAt(text, pos)
        decreases |text| - pos
      {
        result := result + [c];
        pos := pos + 1;
        c := CurrentChar();
      }
    }

    method Identifier() returns (result: string)
      requires Valid()
      modifies this
      ensures Valid() && line == old(line)
      ensures pos == WordEnd(text, old(pos)) && result == text[old(pos)..pos]
    {
      result := "";
      var c := CurrentChar();
      while IsAlnum(c) || c == '_'
        invariant old(pos) <= pos <= |text| && line == old(line)
        invariant WordEnd(text, pos) == WordEnd(text, old(pos))
        invariant result == text[old(pos)..pos] && c == CharAt(text, pos)
        decreases |text| - pos
      {
        result := result + [c];
        pos := pos + 1;
        c := CurrentChar();
      }
    }

    method StringLiteral() returns (r: Result<string>)
      requires Valid() && CharAt(text, pos) == '"'
      modifies this
      ensures Valid()
      ensures var e := StringEnd(text, old(pos) + 1, old(line));
        if CharAt(text, e.pos) == '"' then r == Ok(text[old(pos) + 1..e.pos]) && State() == LexState(e.pos + 1, e.line)
        else r == Err(UnterminatedString + IntToString(e.line)) && State() == e
    {
      pos := pos + 1;
      var result := "";
      var c := CurrentChar();
      while c != '"' && c != '\0'
        invariant old(pos) + 1 <= pos <= |text|
        invariant StringEnd(text, pos, line) == StringEnd(text, old(pos) + 1, old(line))
        invariant result == text[old(pos) + 1..pos] && c == CharAt(text, pos)
        decreases |text| - pos
      {
        assert text[old(pos) + 1..pos + 1] == text[old(pos) + 1..pos] + [c];
        if c == '\n' { line := line + 1; }
        result := result + [c];
        pos := pos + 1;
        c := CurrentChar();
      }
      if c == '"' {
        pos := pos + 1;
        return Ok(result);
      }
      return Err(UnterminatedString + IntToString(line));
    }

    method GetNextToken() returns (r: Result<Token>)
      requires Valid()
      modifies this
      ensures Valid()
      ensures Next(text, old(State())) == (if r.Ok? then Done(r.value, State()) else Fail(r.msg, State()))
    {
      var err := SkipWhitespaceAndComments();
      if err.Some? {
        return Err(err.value);
      }
      var c := CurrentChar();
      if c == '\0' {
        return Ok(Token(END, "", line));
      }
      if IsDigit(c) {
        var ln := line;
        var v := Number();
        return Ok(Token(NUMBER, v, ln));
      }
      if IsAlpha(c) || c == '_' {
        var ln := line;
        var id := Identifier();
        if id == "cout" { return Ok(Token(COUT, id, ln)); }
        if id == "cin" { return Ok(Token(CIN, id, ln)); }
        return Ok(Token(IDENTIFIER, id, ln));
      }
      if c == '"' {
        var ln := line;
        var s := StringLiteral();
        if s.Err? {
          return Err(s.msg);
        }
        return Ok(Token(STRING, s.value, ln));
      }
      pos := pos + 1;
      match c {
        case '+' => return Ok(Token(PLUS, "+", line));
        case '-' => return Ok(Token(MINUS, "-", line));
        case '*' => return Ok(Token(STAR, "*", line));
        case '/' => return Ok(Token(SLASH, "/", line));
        case '=' => return Ok(Token(ASSIGN, "=", line));
        case '(' => return Ok(Token(LPAREN, "(", line));
        case ')' => return Ok(Token(RPAREN, ")", line));
        case ';' => return Ok(Token(SEMICOLON, ";", line));
        case _ => return Err(InvalidCharacter + [c] + "' at line " + IntToString(line));
      }
    }
  }
}
