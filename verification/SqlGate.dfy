/**
 The SQL gate of app/modules/grading/sql_sandbox.py: a six-state scanner that blanks quoted text
 and comments, the token list read off the blanked text, and the checks made on both.
 */
module SqlGate {
  import opened Common

  datatype LexState =
    | Normal
    | LineComment
    | BlockComment
    | Single
    | Double
    | Dollar(tag: string)

  /** What one turn of the scanning loop does: how far it moves, what it writes, where it goes. */
  datatype Turn = Turn(out: string, next: LexState, semicolon: bool)

  /** The whole scan: blanked text, positions of live semicolons, state at the end. */
  datatype Scanned = Scanned(text: string, semicolons: seq<nat>, final: LexState)

  datatype LexResult =
    | Lexed(tokens: seq<string>, semicolons: seq<nat>)
    | Unterminated

  predicate WellFormed(st: LexState) {
    st.Dollar? ==> |st.tag| >= 2 && st.tag[0] == '$'
  }

  predicate IsIdentStart(c: char) {
    'A' <= c <= 'Z' || 'a' <= c <= 'z' || c == '_'
  }

  predicate IsIdentPart(c: char) {
    IsIdentStart(c) || '0' <= c <= '9'
  }

  /** Length of the longest identifier run at the front of s. */
  function IdentRun(s: string): (n: nat)
    ensures n <= |s|
  {
    if s != [] && IsIdentPart(s[0]) then 1 + IdentRun(s[1..]) else 0
  }

  /** The dollar-quote tag s starts with: `$name$` first, then `$$`. */
  function DollarTag(s: string): (t: Option<string>)
    ensures t.Some? ==> |t.value| >= 2 && t.value <= s && t.value[0] == '$'
  {
    if |s| < 2 || s[0] != '$' then None
    else if IsIdentStart(s[1]) then
      var n := 2 + IdentRun(s[2..]);
      if n < |s| && s[n] == '$' then Some(s[..n + 1]) else None
    else if s[1] == '$' then Some(s[..2])
    else None
  }

  function Blanks(n: nat): (b: string)
    ensures |b| == n && forall k :: 0 <= k < n ==> b[k] == ' '
  {
    if n == 0 then "" else " " + Blanks(n - 1)
  }

  lemma {:induction false} Assoc<T>(a: seq<T>, b: seq<T>, c: seq<T>)
    ensures (a + b) + c == a + (b + c)
  {
  }

  /** The two characters at the front of s are a and b. */
  predicate IsPair(s: string, a: char, b: char) {
    |s| >= 2 && s[0] == a && s[1] == b
  }

  function QuoteOf(st: LexState): char {
    if st == Single then '\'' else '"'
  }

  /** One turn of the loop at the front of the remaining text. */
  function TurnAt(st: LexState, s: string): (t: Turn)
    requires s != [] && WellFormed(st)
    ensures 1 <= |t.out| <= |s| && WellFormed(t.next)
  {
    var c := s[0];
    match st
    case Normal =>
      if IsPair(s, '-', '-') then Turn(Blanks(2), LineComment, false)
      else if IsPair(s, '/', '*') then Turn(Blanks(2), BlockComment, false)
      else if c == '\'' then Turn(Blanks(1), Single, false)
      else if c == '"' then Turn(Blanks(1), Double, false)
      else if DollarTag(s).Some? then
        var tag := DollarTag(s).value;
        Turn(Blanks(|tag|), Dollar(tag), false)
      else Turn([c], Normal, c == ';')
    case LineComment =>
      if c == '\n' then Turn([c], Normal, false) else Turn(Blanks(1), LineComment, false)
    case BlockComment =>
      if IsPair(s, '*', '/') then Turn(Blanks(2), Normal, false) else Turn(Blanks(1), BlockComment, false)
    case Dollar(tag) =>
      if tag <= s then Turn(Blanks(|tag|), Normal, false) else Turn(Blanks(1), st, false)
    case _ =>
      var quote := QuoteOf(st);
      if IsPair(s, quote, quote) then Turn(Blanks(2), st, false)
      else Turn(Blanks(1), if c == quote then Normal else st, false)
  }

  /** Two scans laid end to end. */
  function Join(a: Scanned, b: Scanned): Scanned {
    Scanned(a.text + b.text, a.semicolons + b.semicolons, b.final)
  }

  function TurnScan(t: Turn, at: nat): Scanned {
    Scanned(t.out, if t.semicolon then [at] else [], t.next)
  }

  /** The scan of s from state st; s starts at position `at` of the statement. */
  function Scan(st: LexState, s: string, at: nat): (r: Scanned)
    requires WellFormed(st)
    ensures |r.text| == |s| && WellFormed(r.final)
    decreases |s|
  {
    if s == [] then Scanned([], [], st)
    else
      var t := TurnAt(st, s);
      Join(TurnScan(t, at), Scan(t.next, s[|t.out|..], at + |t.out|))
  }

  /** The scan of nonempty text is one turn followed by the scan of what is left. */
  lemma {:induction false} ScanTurn(st: LexState, s: string, at: nat, t: Turn)
    requires WellFormed(st) && s != [] && TurnAt(st, s) == t
    ensures Scan(st, s, at) == Join(TurnScan(t, at), Scan(t.next, s[|t.out|..], at + |t.out|))
  {
  }

  lemma {:induction false} JoinAssoc(a: Scanned, b: Scanned, c: Scanned)
    ensures Join(Join(a, b), c) == Join(a, Join(b, c))
  {
  }

  function UpperChar(c: char): char {
    if 'a' <= c <= 'z' then c - 'a' + 'A' else c
  }

  function Upper(s: string): string {
    seq(|s|, k requires 0 <= k < |s| => UpperChar(s[k]))
  }

  /** Every maximal identifier of the text, in order. */
  function Identifiers(s: string): seq<string>
    decreases |s|
  {
    if s == [] then []
    else if IsIdentStart(s[0]) then
      var n := 1 + IdentRun(s[1..]);
      [s[..n]] + Identifiers(s[n..])
    else Identifiers(s[1..])
  }

  function Tokens(text: string): seq<string> {
    Identifiers(Upper(text))
  }

  /** What the lexer makes of a finished scan. */
  function Judge(r: Scanned): LexResult {
    if r.final in {Normal, LineComment} then Lexed(Tokens(r.text), r.semicolons) else Unterminated
  }

  /** The value of the lexer: what the loop below returns. */
  function Lex(statement: string): LexResult {
    Judge(Scan(Normal, statement, 0))
  }

  lemma {:induction false} TurnJoined(before: Scanned, t: Turn, at: nat)
    ensures Join(before, TurnScan(t, at))
         == Scanned(before.text + t.out, before.semicolons + (if t.semicolon then [at] else []), t.next)
  {
  }

  /** What the loop has written so far. */
  datatype Progress = Progress(scrubbed: string, semicolons: seq<nat>)

  /** Scanning on from position i in the given state completes what is written to the whole scan. */
  ghost predicate Extends(statement: string, i: nat, st: LexState, done: Progress)
    requires i <= |statement| && WellFormed(st)
  {
    Scan(Normal, statement, 0) == Join(Scanned(done.scrubbed, done.semicolons, st), Scan(st, statement[i..], i))
  }

  /** The scan from position i is the turn at i, then the scan from where it leads. */
  lemma {:induction false} ScanFrom(statement: string, i: nat, st: LexState, t: Turn)
    requires i < |statement| && WellFormed(st) && t == TurnAt(st, statement[i..])
    ensures i + |t.out| <= |statement|
    ensures Scan(st, statement[i..], i) == Join(TurnScan(t, i), Scan(t.next, statement[i + |t.out|..], i + |t.out|))
  {
    hide TurnAt, Scan, Join, TurnScan;
    ScanTurn(st, statement[i..], i, t);
    assert statement[i..][|t.out|..] == statement[i + |t.out|..];
  }

  lemma {:induction false} ExtendsMeans(statement: string, i: nat, st: LexState, done: Progress)
    requires i <= |statement| && WellFormed(st)
    ensures Extends(statement, i, st, done)
       <==> Scan(Normal, statement, 0) == Join(Scanned(done.scrubbed, done.semicolons, st), Scan(st, statement[i..], i))
  {
  }

  lemma {:induction false} TurnTaken(statement: string, i: nat, st: LexState, done: Progress, i': nat, st': LexState,
                                     done': Progress)
    requires i < |statement| && WellFormed(st) && Extends(statement, i, st, done)
    requires var t := TurnAt(st, statement[i..]);
             && i' == i + |t.out| && st' == t.next && done'.scrubbed == done.scrubbed + t.out
             && done'.semicolons == done.semicolons + (if t.semicolon then [i] else [])
    ensures i' <= |statement| && Extends(statement, i', st', done')
  {
    hide *;
    var t := TurnAt(st, statement[i..]);
    var before := Scanned(done.scrubbed, done.semicolons, st);
    ScanFrom(statement, i, st, t);
    var rest := Scan(st', statement[i'..], i');
    ExtendsMeans(statement, i, st, done);
    ExtendsMeans(statement, i', st', done');
    JoinAssoc(before, TurnScan(t, i), rest);
    TurnJoined(before, t, i);
  }

  lemma {:induction false} ExtendsStart(statement: string)
    ensures Extends(statement, 0, Normal, Progress([], []))
  {
  }

  lemma {:induction false} ExtendsEnd(statement: string, st: LexState, done: Progress)
    requires WellFormed(st) && Extends(statement, |statement|, st, done)
    ensures Scan(Normal, statement, 0) == Scanned(done.scrubbed, done.semicolons, st)
  {
  }

  /** The scanning loop, step by step as in the source, together with the blanked text it builds. */
  method TokensAndSemicolons(statement: string) returns (result: LexResult, scrubbed: string)
    ensures result == Lex(statement)
    ensures scrubbed == Scan(Normal, statement, 0).text
  {
    hide Scan, Extends;
    ExtendsStart(statement);
    var semicolons: seq<nat> := [];
    var i := 0;
    var state := Normal;
    scrubbed := [];
    while i < |statement|
      invariant 0 <= i <= |statement| && |scrubbed| == i
      invariant WellFormed(state)
      invariant Extends(statement, i, state, Progress(scrubbed, semicolons))
    {
      ghost var i0, state0, scrubbed0, semicolons0 := i, state, scrubbed, semicolons;
      var c := statement[i];
      match state {
        case Normal =>
          if IsPair(statement[i..], '-', '-') {
            state := LineComment;
            scrubbed := scrubbed + "  ";
            i := i + 2;
          } else if IsPair(statement[i..], '/', '*') {
            state := BlockComment;
            scrubbed := scrubbed + "  ";
            i := i + 2;
          } else if c == '\'' || c == '"' {
            state := if c == '\'' then Single else Double;
            scrubbed := scrubbed + " ";
            i := i + 1;
          } else {
            var tag := DollarTag(statement[i..]);
            if tag.Some? {
              state := Dollar(tag.value);
              scrubbed := scrubbed + Blanks(|tag.value|);
              i := i + |tag.value|;
            } else {
              if c == ';' {
                semicolons := semicolons + [i];
              }
              scrubbed := scrubbed + [c];
              i := i + 1;
            }
          }
        case LineComment =>
          scrubbed := scrubbed + (if c == '\n' then "\n" else " ");
          if c == '\n' {
            state := Normal;
          }
          i := i + 1;
        case BlockComment =>
          if IsPair(statement[i..], '*', '/') {
            state := Normal;
            scrubbed := scrubbed + "  ";
            i := i + 2;
          } else {
            scrubbed := scrubbed + " ";
            i := i + 1;
          }
        case Dollar(tag) =>
          if tag <= statement[i..] {
            scrubbed := scrubbed + Blanks(|tag|);
            i := i + |tag|;
            state := Normal;
          } else {
            scrubbed := scrubbed + " ";
            i := i + 1;
          }
        case _ =>
          var quote := QuoteOf(state);
          if IsPair(statement[i..], quote, quote) {
            scrubbed := scrubbed + "  ";
            i := i + 2;
          } else {
            scrubbed := scrubbed + " ";
            if c == quote {
              state := Normal;
            }
            i := i + 1;
          }
      }
      TurnTaken(statement, i0, state0, Progress(scrubbed0, semicolons0), i, state, Progress(scrubbed, semicolons));
    }
    ExtendsEnd(statement, state, Progress(scrubbed, semicolons));
    if state != Normal && state != LineComment {
      return Unterminated, scrubbed;
    }
    result := Lexed(Tokens(scrubbed), semicolons);
  }

  // ----- Scanning the blanked text again -----

  /** The text differs from s only by blanks. */
  ghost predicate OnlyBlanked(text: string, s: string) {
    |text| == |s| && forall k :: 0 <= k < |s| ==> (text[k] == s[k] || text[k] == ' ')
  }

  lemma {:induction false} BlankedJoin(out: string, text: string, s: string)
    requires 1 <= |out| <= |s| && OnlyBlanked(out, s[..|out|]) && OnlyBlanked(text, s[|out|..])
    ensures OnlyBlanked(out + text, s)
  {
  }

  /** Blanking only ever replaces a character by a blank. */
  lemma {:induction false} BlankedText(st: LexState, s: string, at: nat)
    requires WellFormed(st)
    ensures OnlyBlanked(Scan(st, s, at).text, s)
    decreases |s|
  {
    hide Scan, TurnAt;
    if s == [] {
      ScanNothing(st, at);
    } else {
      var t := TurnAt(st, s);
      ScanTurn(st, s, at, t);
      RawOrBlank(st, s);
      assert OnlyBlanked(t.out, s[..|t.out|]);
      BlankedText(t.next, s[|t.out|..], at + |t.out|);
      hide OnlyBlanked;
      BlankedJoin(t.out, Scan(t.next, s[|t.out|..], at + |t.out|).text, s);
    }
  }

  lemma {:induction false} ScanNothing(st: LexState, at: nat)
    requires WellFormed(st)
    ensures Scan(st, [], at) == Scanned([], [], st)
  {
  }

  /** A turn writes blanks, or one character it leaves alone; only the latter can be a semicolon. */
  lemma {:induction false} RawOrBlank(st: LexState, s: string)
    requires WellFormed(st) && s != []
    ensures var t := TurnAt(st, s);
            (t.out == Blanks(|t.out|) && !t.semicolon) || (t.out == [s[0]] && t.next == Normal && s[0] != ' ')
  {
  }

  lemma {:induction false} IdentRunPrefix(s: string, n: nat)
    requires n <= |s| && (forall k :: 0 <= k < n ==> IsIdentPart(s[k])) && (n < |s| ==> !IsIdentPart(s[n]))
    ensures IdentRun(s) == n
  {
    if n > 0 {
      IdentRunPrefix(s[1..], n - 1);
    }
  }

  lemma {:induction false} IdentRunIsIdent(s: string)
    ensures forall k :: 0 <= k < IdentRun(s) ==> IsIdentPart(s[k])
    ensures IdentRun(s) < |s| ==> !IsIdentPart(s[IdentRun(s)])
  {
    if s != [] && IsIdentPart(s[0]) {
      IdentRunIsIdent(s[1..]);
    }
  }

  /** A tag seen at the front of the blanked text was already a tag of the original text. */
  lemma {:induction false} DollarTagSurvives(s: string, blanked: string)
    requires OnlyBlanked(blanked, s) && DollarTag(blanked).Some?
    ensures DollarTag(s).Some?
  {
    if IsIdentStart(blanked[1]) {
      IdentRunIsIdent(blanked[2..]);
      IdentRunPrefix(s[2..], IdentRun(blanked[2..]));
    }
  }

  /** Characters that neither open anything nor end a statement pass through the normal state. */
  lemma {:induction false} PlainTurn(c: char, rest: string)
    requires c !in {'-', '/', '\'', '"', '$', ';'}
    ensures TurnAt(Normal, [c] + rest) == Turn([c], Normal, false)
  {
  }

  lemma {:induction false} ScanBlanks(n: nat, rest: string, at: nat)
    ensures Scan(Normal, Blanks(n) + rest, at) == Join(Scanned(Blanks(n), [], Normal), Scan(Normal, rest, at + n))
  {
    hide TurnAt, Scan;
    if n == 0 {
      assert Blanks(0) + rest == rest;
    } else {
      ScanBlanks(n - 1, rest, at + 1);
      Assoc(" ", Blanks(n - 1), rest);
      PlainTurn(' ', Blanks(n - 1) + rest);
      var s := Blanks(n) + rest;
      assert s[1..] == Blanks(n - 1) + rest;
      ScanTurn(Normal, s, at, Turn(" ", Normal, false));
      JoinAssoc(TurnScan(Turn(" ", Normal, false), at), Scanned(Blanks(n - 1), [], Normal), Scan(Normal, rest, at + n));
    }
  }

  /** A character left alone is left alone again when the text after it has been blanked. */
  lemma {:induction false} SameRawTurn(st: LexState, s: string, blanked: string)
    requires WellFormed(st) && s != []
    requires TurnAt(st, s).out == [s[0]] && s[0] != ' '
    requires OnlyBlanked(blanked, s) && blanked[0] == s[0]
    ensures TurnAt(Normal, blanked) == TurnAt(st, s)
  {
    assert TurnAt(st, s).out[0] == s[0];
    if DollarTag(blanked).Some? {
      DollarTagSurvives(s, blanked);
    }
  }

  lemma {:induction false} RescanBlank(t: Turn, rest: Scanned, at: nat)
    requires t.out == Blanks(|t.out|) && !t.semicolon
    requires Scan(Normal, rest.text, at + |t.out|) == Scanned(rest.text, rest.semicolons, Normal)
    ensures Scan(Normal, t.out + rest.text, at)
            == Scanned(t.out + rest.text, TurnScan(t, at).semicolons + rest.semicolons, Normal)
  {
    hide TurnAt, Scan, Blanks;
    ScanBlanks(|t.out|, rest.text, at);
  }

  lemma {:induction false} RescanRaw(t: Turn, rest: Scanned, at: nat)
    requires |t.out| == 1 && t.next == Normal && TurnAt(Normal, t.out + rest.text) == t
    requires Scan(Normal, rest.text, at + 1) == Scanned(rest.text, rest.semicolons, Normal)
    ensures Scan(Normal, t.out + rest.text, at)
            == Scanned(t.out + rest.text, TurnScan(t, at).semicolons + rest.semicolons, Normal)
  {
  }

  /** The blanked text is a fixed point: scanning it again blanks nothing and finds the same semicolons. */
  lemma {:induction false} RescanFixpoint(st: LexState, s: string, at: nat)
    requires WellFormed(st)
    ensures var r := Scan(st, s, at);
            Scan(Normal, r.text, at) == Scanned(r.text, r.semicolons, Normal)
    decreases |s|
  {
    hide Scan, TurnAt, Blanks;
    if s == [] {
      ScanNothing(st, at);
      ScanNothing(Normal, at);
    } else {
      var t := TurnAt(st, s);
      var rest := Scan(t.next, s[|t.out|..], at + |t.out|);
      ScanTurn(st, s, at, t);
      RescanFixpoint(t.next, s[|t.out|..], at + |t.out|);
      RawOrBlank(st, s);
      if t.out == Blanks(|t.out|) && !t.semicolon {
        RescanBlank(t, rest, at);
      } else {
        BlankedText(st, s, at);
        SameRawTurn(st, s, t.out + rest.text);
        RescanRaw(t, rest, at);
      }
    }
  }

  /**
   Scrubbing is idempotent for every statement: the scrubbed text always lexes, to the same text,
   and for a statement the lexer accepts also to the same tokens and semicolons.
   */
  lemma {:induction false} ScrubIdempotent(statement: string)
    ensures var once := Scan(Normal, statement, 0);
            && Scan(Normal, once.text, 0).text == once.text
            && Lex(once.text) == Lexed(Tokens(once.text), once.semicolons)
            && (Lex(statement).Lexed? ==> Lex(once.text) == Lex(statement))
  {
    hide Scan;
    RescanFixpoint(Normal, statement, 0);
  }

  // ----- The gate -----

  datatype GateError = BadLex | NotAllowed | Forbidden | BadSchemaObject | MultipleStatements

  const ALWAYS_BLOCKED: set<string> := {
    "ANALYZE", "CALL", "COMMENT", "COPY", "DO", "EXECUTE", "GRANT", "LOCK", "LO_EXPORT", "LO_IMPORT", "MERGE",
    "PG_CANCEL_BACKEND", "PG_READ_FILE", "PG_TERMINATE_BACKEND", "PG_WRITE_FILE", "REFRESH", "REINDEX", "REVOKE",
    "SECURITY", "SET_CONFIG", "TRUNCATE", "VACUUM"
  }

  const QUERY_BLOCKED: set<string> := {"INSERT", "UPDATE", "DELETE", "CREATE", "ALTER", "DROP"}

  function ModePrefixes(mode: string): Option<set<string>> {
    if mode == "QUERY" then Some({"SELECT", "TABLE", "VALUES", "WITH"})
    else if mode == "MUTATION" then Some({"INSERT", "UPDATE", "DELETE"})
    else if mode == "SCHEMA" then Some({"CREATE", "ALTER", "DROP"})
    else None
  }

  function SchemaObjects(command: string): set<string> {
    if command == "ALTER" then {"TABLE"} else {"TABLE", "INDEX", "VIEW"}
  }

  /** The checks that look at tokens only. */
  function CheckTokens(tokens: seq<string>, mode: string): Option<GateError> {
    var allowed := ModePrefixes(mode);
    if allowed.None? || tokens == [] || tokens[0] !in allowed.value then Some(NotAllowed)
    else if exists token :: token in tokens && token in ALWAYS_BLOCKED then Some(Forbidden)
    else if mode == "QUERY" && exists token :: token in tokens && token in QUERY_BLOCKED then Some(Forbidden)
    else if mode == "SCHEMA" && (|tokens| < 2 || tokens[1] !in SchemaObjects(tokens[0])) then Some(BadSchemaObject)
    else None
  }

  /** Everything a statement says after its first live semicolon is whitespace. */
  predicate OnlyBlankAfter(statement: string, semicolon: nat) {
    semicolon < |statement| ==> Strip(statement[semicolon + 1..]) == []
  }

  function ValidateSql(statement: string, mode: string): Option<GateError> {
    match Lex(statement)
    case Unterminated => Some(BadLex)
    case Lexed(tokens, semicolons) =>
      var bad := CheckTokens(tokens, mode);
      if bad.Some? then bad
      else if |semicolons| > 1 || (semicolons != [] && !OnlyBlankAfter(statement, semicolons[0]))
      then Some(MultipleStatements)
      else None
  }

  /** Positions that hold a semicolon in s, counted from `at`. */
  ghost predicate AtSemicolons(xs: seq<nat>, s: string, at: nat) {
    forall k :: 0 <= k < |xs| ==> at <= xs[k] < at + |s| && s[xs[k] - at] == ';'
  }

  lemma {:induction false} TurnSemicolon(st: LexState, s: string)
    requires WellFormed(st) && s != [] && TurnAt(st, s).semicolon
    ensures s[0] == ';'
  {
  }

  lemma {:induction false} SemicolonsJoin(first: bool, rest: seq<nat>, s: string, n: nat, at: nat)
    requires 1 <= n <= |s| && AtSemicolons(rest, s[n..], at + n) && (first ==> s[0] == ';')
    ensures AtSemicolons((if first then [at] else []) + rest, s, at)
  {
  }

  lemma {:induction false} SemicolonRange(st: LexState, s: string, at: nat)
    requires WellFormed(st)
    ensures AtSemicolons(Scan(st, s, at).semicolons, s, at)
    decreases |s|
  {
    hide Scan, TurnAt;
    if s == [] {
      ScanNothing(st, at);
    } else {
      var t := TurnAt(st, s);
      ScanTurn(st, s, at, t);
      SemicolonRange(t.next, s[|t.out|..], at + |t.out|);
      if t.semicolon {
        TurnSemicolon(st, s);
      }
      hide AtSemicolons;
      SemicolonsJoin(t.semicolon, Scan(t.next, s[|t.out|..], at + |t.out|).semicolons, s, |t.out|, at);
    }
  }

  /** Text that is blank after some point is still so when only blanks were written into it. */
  lemma {:induction false} BlankStaysBlank(text: string, s: string, k: nat)
    requires OnlyBlanked(text, s) && k <= |s| && Strip(s[k..]) == []
    ensures Strip(text[k..]) == []
  {
    StripEmpty(s[k..]);
    StripEmpty(text[k..]);
    hide Strip;
    forall j | 0 <= j < |text[k..]|
      ensures IsSpace(text[k..][j])
    {
      assert s[k..][j] == s[k + j] && text[k..][j] == text[k + j];
    }
  }

  /** Blanking a statement the gate accepts gives a statement the gate accepts. */
  lemma {:induction false} ScrubKeepsAcceptance(statement: string, mode: string)
    requires ValidateSql(statement, mode) == None
    ensures ValidateSql(Scan(Normal, statement, 0).text, mode) == None
  {
    hide Scan, Strip;
    ScrubIdempotent(statement);
    BlankedText(Normal, statement, 0);
    SemicolonRange(Normal, statement, 0);
    var r := Scan(Normal, statement, 0);
    if r.semicolons != [] {
      BlankStaysBlank(r.text, statement, r.semicolons[0] + 1);
    }
  }
}
