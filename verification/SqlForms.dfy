/**
 What the SQL scanner makes of text that SQL does not run: string literals, quoted names, comments to
 the end of the line, block comments and dollar-quoted text, each between any two pieces of a statement.
 */
module SqlForms {
  import opened Common
  import opened SqlGate

  // ----- The forms -----

  datatype Form =
    | Literal(text: string)
    | Name(text: string)
    | LineNote(text: string)
    | BlockNote(text: string)
    | DollarText(tag: string, text: string)

  /** Text with the quote character doubled, ready to stand between quotes. */
  function Escape(quote: char, text: string): string {
    if text == [] then [] else EscapeChar(quote, text[0]) + Escape(quote, text[1..])
  }

  function EscapeChar(quote: char, c: char): string {
    if c == quote then [quote, quote] else [c]
  }

  function Opening(x: Form): string {
    match x
    case Literal(_) => "'"
    case Name(_) => "\""
    case LineNote(_) => "--"
    case BlockNote(_) => "/*"
    case DollarText(tag, _) => tag
  }

  function Body(x: Form): string {
    match x
    case Literal(text) => Escape('\'', text)
    case Name(text) => Escape('"', text)
    case _ => x.text
  }

  function Closing(x: Form): string {
    match x
    case Literal(_) => "'"
    case Name(_) => "\""
    case LineNote(_) => "\n"
    case BlockNote(_) => "*/"
    case DollarText(tag, _) => tag
  }

  function Written(x: Form): string {
    Opening(x) + (Body(x) + Closing(x))
  }

  function Inside(x: Form): LexState {
    match x
    case Literal(_) => Single
    case Name(_) => Double
    case LineNote(_) => LineComment
    case BlockNote(_) => BlockComment
    case DollarText(tag, _) => Dollar(tag)
  }

  /** The scan of the closing: blanks, or the line end that a comment leaves in place. */
  function Closed(x: Form): string {
    if x.LineNote? then "\n" else Blanks(|Closing(x)|)
  }

  /** Only the line end is left of a comment to the end of the line, nothing of any other form. */
  function Remains(x: Form): string {
    Blanks(|Opening(x)| + |Body(x)|) + Closed(x)
  }

  /** The text does not close the form: quotes are doubled, and what ends the other forms does not occur in it. */
  predicate Contained(x: Form) {
    match x
    case LineNote(text) => '\n' !in text
    case BlockNote(text) => forall i :: 0 <= i < |text| - 1 ==> !(text[i] == '*' && text[i + 1] == '/')
    case DollarText(tag, text) =>
      DollarTag(tag) == Some(tag) && forall i :: 0 <= i < |text| ==> !(tag <= (text + tag)[i..])
    case _ => true
  }

  /** A quote right behind a closing quote would continue it. */
  predicate EndsBefore(x: Form, rest: string) {
    x.Literal? || x.Name? ==> rest == [] || rest[0] != QuoteOf(Inside(x))
  }

  /** A dollar sign, alone or before what may name a tag. */
  predicate TagFront(s: string) {
    && s != [] && s[0] == '$' && (|s| > 1 ==> IsIdentStart(s[1]))
    && forall k :: 0 < k < |s| ==> IsIdentPart(s[k])
  }

  /** The text ends in what may be the front of a dollar tag. */
  predicate OpenTag(live: string) {
    exists i :: 0 <= i < |live| && TagFront(live[i..])
  }

  /** Nothing that opens a form straddles the end of the live text and the front of t. */
  predicate Sealed(live: string, t: string) {
    t != [] && live != [] ==>
      && !(live[|live| - 1] == '-' && t[0] == '-')
      && !(live[|live| - 1] == '/' && t[0] == '*')
      && (OpenTag(live) ==> t[0] != '$' && !IsIdentPart(t[0]))
  }

  // ----- Statements laid end to end -----

  lemma {:induction false} SealedTail(a: string, b: string, t: string)
    requires Sealed(a + b, t)
    ensures Sealed(b, t)
  {
    if t != [] && b != [] {
      assert (a + b)[|a + b| - 1] == b[|b| - 1];
      if OpenTag(b) {
        var i :| 0 <= i < |b| && TagFront(b[i..]);
        assert (a + b)[|a| + i..] == b[i..];
      }
    }
  }

  /** A tag that is there stays when text is added, and one that straddles the end left the tag open. */
  lemma {:induction false} TagAcross(p: string, t: string)
    requires p != [] && p[0] == '$'
    ensures DollarTag(p).Some? ==> DollarTag(p + t) == DollarTag(p)
    ensures DollarTag(p).None? && DollarTag(p + t).Some? ==>
              && TagFront(p)
              && t != [] && (t[0] == '$' || IsIdentPart(t[0]))
  {
    var s := p + t;
    if |p| >= 2 && IsIdentStart(p[1]) {
      var n, m := IdentRun(p[2..]), IdentRun(s[2..]);
      IdentRunIsIdent(p[2..]);
      IdentRunIsIdent(s[2..]);
      assert forall k :: 0 <= k < |p| - 2 ==> s[2..][k] == p[2..][k];
      if n < |p| - 2 {
        IdentRunPrefix(s[2..], n);
        assert s[..n + 3] == p[..n + 3];
      } else {
        assert forall k :: 2 <= k < |p| ==> p[k] == p[2..][k - 2];
        if t == [] {
          assert s == p;
        } else {
          assert s[2..][|p| - 2] == t[0];
        }
      }
    } else if |p| >= 2 {
      assert s[..2] == p[..2];
    } else if t == [] {
      assert s == p;
    }
  }

  /** What the front of a dollar tag may be made of is copied. */
  lemma {:induction false} IdentCopied(p: string, at: nat)
    requires forall k :: 0 <= k < |p| ==> IsIdentPart(p[k])
    ensures Scan(Normal, p, at).text == p
  {
    if p == [] {
      ScanNothing(Normal, at);
    } else {
      IdentTurn(p);
      hide TurnAt, Scan, IsIdentPart;
      ScanTurn(Normal, p, at, Turn([p[0]], Normal, false));
      IdentCopied(p[1..], at + 1);
      assert p == [p[0]] + p[1..];
    }
  }

  lemma {:induction false} IdentTurn(p: string)
    requires p != [] && IsIdentPart(p[0])
    ensures TurnAt(Normal, p) == Turn([p[0]], Normal, false)
  {
  }

  lemma {:induction false} OpenTagCopied(p: string, at: nat)
    requires TagFront(p) && DollarTag(p).None?
    ensures Scan(Normal, p, at).text == p && OpenTag(p)
  {
    DollarTurn(p);
    hide TurnAt, Scan, IsIdentPart, IsIdentStart, DollarTag;
    ScanTurn(Normal, p, at, Turn([p[0]], Normal, false));
    IdentCopied(p[1..], at + 1);
    assert p == [p[0]] + p[1..] && p[0..] == p;
  }

  lemma {:induction false} DollarTurn(p: string)
    requires p != [] && p[0] == '$' && DollarTag(p).None?
    ensures TurnAt(Normal, p) == Turn([p[0]], Normal, false)
  {
  }

  lemma {:induction false} BlockStays(at: nat)
    ensures Scan(BlockComment, "*", at).final == BlockComment
  {
  }

  /** A dollar-quoted text ends inside the quote unless its tag occurs again, so its tag cannot straddle the end. */
  lemma {:induction false} DollarStays(tag: string, p: string, at: nat)
    requires |tag| >= 2 && tag[0] == '$'
    requires Scan(Dollar(tag), p, at).final == Normal
    ensures |tag| <= |p|
  {
    if p != [] && !(tag <= p) {
      DollarStays(tag, p[1..], at + 1);
    }
  }

  lemma {:induction false} LastChar(st: LexState, p: string, at: nat)
    requires WellFormed(st) && |p| == 1 && st == Normal && p[0] in {'-', '/'}
    ensures Scan(st, p, at).text == p
  {
    assert p[1..] == [];
  }

  /** Text behind the end does not change a turn, except at a closing quote before another one. */
  lemma {:induction false} SameTurn(st: LexState, p: string, t: string, at: nat)
    requires WellFormed(st) && p != [] && Scan(st, p, at).final == Normal && Sealed(Scan(st, p, at).text, t)
    requires !(st in {Single, Double} && p == [QuoteOf(st)] && t != [] && t[0] == QuoteOf(st))
    ensures TurnAt(st, p + t) == TurnAt(st, p)
  {
    var s := p + t;
    assert s[..|p|] == p && (t != [] ==> s[|p|] == t[0]);
    match st
    case Normal =>
      SameNormalTurn(p, t, at);
    case BlockComment =>
      if p == "*" {
        BlockStays(at);
      }
      hide Scan, Sealed, DollarTag;
    case Dollar(tag) =>
      if !(tag <= p) {
        DollarStays(tag, p, at);
      }
      hide Scan, Sealed, DollarTag;
    case _ =>
      hide Scan, Sealed, DollarTag;
  }

  lemma {:induction false} SameNormalTurn(p: string, t: string, at: nat)
    requires p != [] && Sealed(Scan(Normal, p, at).text, t)
    ensures TurnAt(Normal, p + t) == TurnAt(Normal, p)
  {
    var s := p + t;
    assert |p| >= 2 ==> s[1] == p[1];
    assert |p| == 1 && t != [] ==> s[1] == t[0];
    if p[0] == '$' {
      TagAcross(p, t);
      if DollarTag(p).None? && DollarTag(s).Some? {
        OpenTagCopied(p, at);
      }
    }
    if |p| == 1 && p[0] in {'-', '/'} {
      LastChar(Normal, p, at);
    }
    hide Scan, OpenTag, DollarTag;
  }

  lemma {:induction false} FinalOfJoin(a: Scanned, b: Scanned)
    ensures Join(a, b).final == b.final && Join(a, b).text == a.text + b.text
  {
  }

  lemma {:induction false} NothingJoined(st: LexState, t: string, at: nat)
    requires WellFormed(st) && Scan(st, [], at).final == Normal
    ensures Scan(st, [] + t, at) == Join(Scan(st, [], at), Scan(Normal, t, at))
  {
    hide TurnAt;
    assert [] + t == t;
  }

  /** A quote opened right behind a closing one continues it, and reads the same. */
  lemma {:induction false} MergedQuote(st: LexState, t: string, at: nat)
    requires st in {Single, Double} && t != [] && t[0] == QuoteOf(st)
    ensures Scan(st, [QuoteOf(st)] + t, at) == Join(Scan(st, [QuoteOf(st)], at), Scan(Normal, t, at + 1))
  {
    var quote := [QuoteOf(st)];
    var s := quote + t;
    assert TurnAt(st, s) == Turn(Blanks(2), st, false);
    assert TurnAt(st, quote) == Turn(Blanks(1), Normal, false);
    assert TurnAt(Normal, t) == Turn(Blanks(1), st, false);
    hide TurnAt, Scan, Join;
    assert s[2..] == t[1..] && quote[1..] == [];
    ScanTurn(st, s, at, Turn(Blanks(2), st, false));
    ScanTurn(st, quote, at, Turn(Blanks(1), Normal, false));
    ScanTurn(Normal, t, at + 1, Turn(Blanks(1), st, false));
    ScanNothing(Normal, at + 1);
    TwoBlanks(st, at);
    JoinAssoc(Scan(st, quote, at), TurnScan(Turn(Blanks(1), st, false), at + 1), Scan(st, t[1..], at + 2));
  }

  lemma {:induction false} TwoBlanks(st: LexState, at: nat)
    ensures Join(TurnScan(Turn(Blanks(1), Normal, false), at), Scanned([], [], Normal))
            == Scanned(Blanks(1), [], Normal)
    ensures Join(Scanned(Blanks(1), [], Normal), TurnScan(Turn(Blanks(1), st, false), at + 1))
            == TurnScan(Turn(Blanks(2), st, false), at)
  {
  }

  /**
   Statements laid end to end are scanned one after the other, when the first is scanned to the normal
   state and nothing that opens a form straddles the seam.
   */
  lemma {:induction false} ScanJoin(st: LexState, p: string, t: string, at: nat)
    requires WellFormed(st) && Scan(st, p, at).final == Normal && Sealed(Scan(st, p, at).text, t)
    ensures Scan(st, p + t, at) == Join(Scan(st, p, at), Scan(Normal, t, at + |p|))
    decreases |p|
  {
    hide TurnAt, Scan, Join, Sealed;
    if p == [] {
      NothingJoined(st, t, at);
    } else if st in {Single, Double} && p == [QuoteOf(st)] && t != [] && t[0] == QuoteOf(st) {
      MergedQuote(st, t, at);
    } else {
      var turn := TurnAt(st, p);
      var n := |turn.out|;
      SameTurn(st, p, t, at);
      ScanTurn(st, p, at, turn);
      ScanTurn(st, p + t, at, turn);
      FinalOfJoin(TurnScan(turn, at), Scan(turn.next, p[n..], at + n));
      SealedTail(turn.out, Scan(turn.next, p[n..], at + n).text, t);
      TakeDrop(p, t, n);
      ScanJoin(turn.next, p[n..], t, at + n);
      JoinAssoc(TurnScan(turn, at), Scan(turn.next, p[n..], at + n), Scan(Normal, t, at + |p|));
    }
  }

  /** A prefix of the front part of a text is a prefix of the text. */
  lemma {:induction false} TakeDrop(a: string, b: string, m: nat)
    requires m <= |a|
    ensures (a + b)[..m] == a[..m] && (a + b)[m..] == a[m..] + b
  {
  }

  // ----- Plain text -----

  /** No quote, comment or dollar tag opens at the front. */
  predicate PlainFront(s: string)
    requires s != []
  {
    && s[0] != '\'' && s[0] != '"' && !IsPair(s, '-', '-') && !IsPair(s, '/', '*') && DollarTag(s).None?
  }

  /** No quote, comment or dollar tag opens anywhere. */
  predicate Plain(s: string) {
    forall i :: 0 <= i < |s| ==> PlainFront(s[i..])
  }

  lemma {:induction false} PlainTail(s: string)
    requires s != []
    ensures Plain(s) <==> TurnAt(Normal, s).out == [s[0]] && TurnAt(Normal, s).next == Normal && Plain(s[1..])
  {
    assert s[0..] == s;
    if Plain(s) {
      assert forall i :: 0 <= i < |s[1..]| ==> s[1..][i..] == s[i + 1..];
    }
    if TurnAt(Normal, s).out == [s[0]] && TurnAt(Normal, s).next == Normal && Plain(s[1..]) {
      assert forall i :: 0 < i < |s| ==> s[i..] == s[1..][i - 1..];
    }
  }

  /** The places of all semicolons of a text that starts at `at`. */
  function SemicolonsIn(s: string, at: nat): (r: seq<nat>)
    ensures forall n :: n in r <==> at <= n < at + |s| && s[n - at] == ';'
    ensures forall i, j :: 0 <= i < j < |r| ==> r[i] < r[j]
  {
    if s == [] then []
    else
      var rest := SemicolonsIn(s[1..], at + 1);
      assert forall n :: n in rest <==> at + 1 <= n < at + |s| && s[n - at] == ';';
      assert forall k :: 0 <= k < |rest| ==> rest[k] in rest;
      (if s[0] == ';' then [at] else []) + rest
  }

  lemma {:induction false} NormalRaw(s: string)
    requires s != []
    ensures var t := TurnAt(Normal, s);
            && (t.out == [s[0]] && t.next == Normal ==> t == Turn([s[0]], Normal, s[0] == ';'))
            && (!(t.out == [s[0]] && t.next == Normal) ==> t.out[0] == ' ' && s[0] != ' ')
  {
  }

  /** Plain text, and no other, is copied as it is; its semicolons are all counted. */
  lemma {:induction false} PlainIsCopied(s: string, at: nat)
    ensures Scan(Normal, s, at).text == s <==> Plain(s)
    ensures Plain(s) ==> Scan(Normal, s, at) == Scanned(s, SemicolonsIn(s, at), Normal)
  {
    hide *;
    NormalWellFormed();
    if s == [] {
      NothingCopied(at);
    } else {
      var t := TurnAt(Normal, s);
      ScanTurn(Normal, s, at, t);
      PlainTail(s);
      NormalRaw(s);
      if t.out == [s[0]] && t.next == Normal {
        PlainIsCopied(s[1..], at + 1);
        OneCopied(s, at, Scan(Normal, s[1..], at + 1));
      } else {
        OneBlanked(s, t, at, Scan(t.next, s[|t.out|..], at + |t.out|));
      }
    }
  }

  lemma {:induction false} NothingCopied(at: nat)
    ensures Scan(Normal, [], at) == Scanned([], SemicolonsIn([], at), Normal) && Plain([])
  {
  }

  lemma {:induction false} OneCopied(s: string, at: nat, rest: Scanned)
    requires s != []
    ensures var r := Join(TurnScan(Turn([s[0]], Normal, s[0] == ';'), at), rest);
            && (r.text == s <==> rest.text == s[1..])
            && (rest == Scanned(s[1..], SemicolonsIn(s[1..], at + 1), Normal) ==>
                  r == Scanned(s, SemicolonsIn(s, at), Normal))
  {
    assert s == [s[0]] + s[1..];
    assert ([s[0]] + rest.text)[1..] == rest.text;
  }

  lemma {:induction false} OneBlanked(s: string, t: Turn, at: nat, rest: Scanned)
    requires s != [] && t.out != [] && t.out[0] == ' ' && s[0] != ' '
    ensures Join(TurnScan(t, at), rest).text != s
  {
    assert (t.out + rest.text)[0] == t.out[0];
  }

  // ----- One form -----

  /** Text that a state keeps blanking, a character at a time. */
  lemma {:induction false} BlankRun(st: LexState, body: string, tail: string, at: nat)
    requires WellFormed(st)
    requires forall i :: 0 <= i < |body| ==> TurnAt(st, (body + tail)[i..]) == Turn(Blanks(1), st, false)
    ensures Scan(st, body + tail, at) == Join(Scanned(Blanks(|body|), [], st), Scan(st, tail, at + |body|))
  {
    hide TurnAt, Scan, Join, Blanks;
    if body == [] {
      assert body + tail == tail;
      NoBlanks(st, Scan(st, tail, at));
    } else {
      var s, rest := body + tail, body[1..] + tail;
      assert s[0..] == s && s[1..] == rest;
      forall i | 0 <= i < |body[1..]|
        ensures TurnAt(st, rest[i..]) == Turn(Blanks(1), st, false)
      {
        assert rest[i..] == s[i + 1..];
      }
      BlankRun(st, body[1..], tail, at + 1);
      ScanTurn(st, s, at, Turn(Blanks(1), st, false));
      JoinAssoc(TurnScan(Turn(Blanks(1), st, false), at), Scanned(Blanks(|body| - 1), [], st),
                Scan(st, tail, at + |body|));
      MoreBlanks(1, |body| - 1, st, st, at);
    }
  }

  lemma {:induction false} NoBlanks(st: LexState, r: Scanned)
    ensures Join(Scanned(Blanks(0), [], st), r) == r
  {
  }

  lemma {:induction false} MoreBlanks(m: nat, n: nat, st: LexState, st': LexState, at: nat)
    ensures Join(TurnScan(Turn(Blanks(m), st, false), at), Scanned(Blanks(n), [], st'))
            == Scanned(Blanks(m + n), [], st')
    ensures |Blanks(1)| == 1
  {
  }

  /** Escaped text is blanked inside its quotes, and stays inside. */
  lemma {:induction false} ScanEscaped(st: LexState, q: string, tail: string, at: nat)
    requires st in {Single, Double}
    ensures var n := |Escape(QuoteOf(st), q)|;
            Scan(st, Escape(QuoteOf(st), q) + tail, at) == Join(Scanned(Blanks(n), [], st), Scan(st, tail, at + n))
  {
    hide TurnAt, Scan, Join;
    var quote := QuoteOf(st);
    if q == [] {
      assert Escape(quote, q) + tail == tail;
      NoBlanks(st, Scan(st, tail, at));
    } else {
      var head, rest := EscapeChar(quote, q[0]), Escape(quote, q[1..]) + tail;
      var s := Escape(quote, q) + tail;
      assert s == head + rest;
      EscapedTurn(st, q[0], Escape(quote, q[1..]), tail);
      var t := Turn(Blanks(|head|), st, false);
      ScanTurn(st, s, at, t);
      assert s[|head|..] == rest;
      ScanEscaped(st, q[1..], tail, at + |head|);
      JoinAssoc(TurnScan(t, at), Scanned(Blanks(|Escape(quote, q[1..])|), [], st),
                Scan(st, tail, at + |Escape(quote, q)|));
      MoreBlanks(|head|, |Escape(quote, q[1..])|, st, st, at);
    }
  }

  lemma {:induction false} EscapedTurn(st: LexState, c: char, rest: string, tail: string)
    requires st in {Single, Double}
    ensures TurnAt(st, EscapeChar(QuoteOf(st), c) + (rest + tail))
            == Turn(Blanks(|EscapeChar(QuoteOf(st), c)|), st, false)
  {
  }

  /** The body of a form is blanked. */
  lemma {:induction false} ScanBody(x: Form, rest: string, at: nat)
    requires Contained(x) && WellFormed(Inside(x))
    ensures Scan(Inside(x), Body(x) + (Closing(x) + rest), at)
            == Join(Scanned(Blanks(|Body(x)|), [], Inside(x)), Scan(Inside(x), Closing(x) + rest, at + |Body(x)|))
  {
    hide *;
    if x.Literal? || x.Name? {
      EscapedBody(x);
      ScanEscaped(Inside(x), x.text, Closing(x) + rest, at);
    } else {
      forall i | 0 <= i < |x.text|
        ensures TurnAt(Inside(x), (x.text + (Closing(x) + rest))[i..]) == Turn(Blanks(1), Inside(x), false)
      {
        BodyTurn(x, rest, i);
      }
      PlainBody(x);
      BlankRun(Inside(x), x.text, Closing(x) + rest, at);
    }
  }

  lemma {:induction false} PlainBody(x: Form)
    requires !x.Literal? && !x.Name?
    ensures Body(x) == x.text
  {
  }

  lemma {:induction false} EscapedBody(x: Form)
    requires x.Literal? || x.Name?
    ensures Inside(x) in {Single, Double} && Body(x) == Escape(QuoteOf(Inside(x)), x.text)
  {
  }

  lemma {:induction false} BodyTurn(x: Form, rest: string, i: nat)
    requires Contained(x) && WellFormed(Inside(x)) && i < |x.text| && !x.Literal? && !x.Name?
    ensures TurnAt(Inside(x), (x.text + (Closing(x) + rest))[i..]) == Turn(Blanks(1), Inside(x), false)
  {
    var s := x.text + (Closing(x) + rest);
    assert s[i..][0] == x.text[i];
    match x
    case LineNote(text) =>
    case BlockNote(text) =>
      assert s[i..][1] == s[i + 1];
      assert i + 1 < |text| ==> s[i + 1] == text[i + 1];
      assert i + 1 == |text| ==> s[i + 1] == '*';
    case DollarText(tag, text) =>
      assert s == (text + tag) + rest;
      assert s[i..] == (text + tag)[i..] + rest;
      PrefixWithin(tag, (text + tag)[i..], rest);
  }

  /** The closing ends the form. */
  lemma {:induction false} ScanClosing(x: Form, rest: string, at: nat)
    requires WellFormed(Inside(x)) && EndsBefore(x, rest)
    ensures Scan(Inside(x), Closing(x) + rest, at)
            == Join(Scanned(Closed(x), [], Normal), Scan(Normal, rest, at + |Closing(x)|))
  {
    hide *;
    ClosingTurn(x, rest);
    OneTurn(Inside(x), Closing(x), rest, at, Turn(Closed(x), Normal, false));
  }

  lemma {:induction false} NormalWellFormed()
    ensures WellFormed(Normal)
  {
  }

  /** A turn that takes exactly the front part of a text. */
  lemma {:induction false} OneTurn(st: LexState, head: string, rest: string, at: nat, t: Turn)
    requires WellFormed(st) && head != [] && TurnAt(st, head + rest) == t && |t.out| == |head| && !t.semicolon
    ensures WellFormed(t.next)
    ensures Scan(st, head + rest, at) == Join(Scanned(t.out, [], t.next), Scan(t.next, rest, at + |head|))
  {
    hide TurnAt, Scan, Join;
    ScanTurn(st, head + rest, at, t);
    assert (head + rest)[|head|..] == rest;
  }

  lemma {:induction false} PrefixWithin(tag: string, s: string, rest: string)
    requires |tag| <= |s|
    ensures tag <= s + rest ==> tag <= s
  {
  }

  lemma {:induction false} ClosingTurn(x: Form, rest: string)
    requires WellFormed(Inside(x)) && EndsBefore(x, rest)
    ensures |Closed(x)| == |Closing(x)| >= 1
    ensures TurnAt(Inside(x), Closing(x) + rest) == Turn(Closed(x), Normal, false)
  {
  }

  /** The opening leads inside. */
  lemma {:induction false} ScanOpening(x: Form, rest: string, at: nat)
    requires Contained(x)
    ensures WellFormed(Inside(x)) && |Opening(x)| >= 1
    ensures Scan(Normal, Opening(x) + rest, at)
            == Join(Scanned(Blanks(|Opening(x)|), [], Inside(x)), Scan(Inside(x), rest, at + |Opening(x)|))
  {
    hide *;
    NormalWellFormed();
    OpeningTurn(x, rest);
    OneTurn(Normal, Opening(x), rest, at, Turn(Blanks(|Opening(x)|), Inside(x), false));
  }

  lemma {:induction false} OpeningTurn(x: Form, rest: string)
    requires Contained(x)
    ensures WellFormed(Inside(x)) && |Opening(x)| >= 1
    ensures TurnAt(Normal, Opening(x) + rest) == Turn(Blanks(|Opening(x)|), Inside(x), false)
  {
    if x.DollarText? {
      TagAcross(x.tag, rest);
    }
  }

  /** A form leaves blanks, and the line end of a comment; then scanning goes on as at the start. */
  lemma {:induction false} ScanForm(x: Form, rest: string, at: nat)
    requires Contained(x) && EndsBefore(x, rest)
    ensures Scan(Normal, Written(x) + rest, at)
            == Join(Scanned(Remains(x), [], Normal), Scan(Normal, rest, at + |Written(x)|))
    ensures |Remains(x)| == |Written(x)| >= 2
  {
    hide *;
    NormalWellFormed();
    WrittenSplit(x, rest);
    RemainsParts(x, rest);
    OpeningTurn(x, rest);
    var o, b, c := |Opening(x)|, |Body(x)|, |Closing(x)|;
    var tail := Closing(x) + rest;
    ScanOpening(x, Body(x) + tail, at);
    ScanBody(x, rest, at + o);
    ScanClosing(x, rest, at + o + b);
    JoinThree(Scan(Normal, Written(x) + rest, at), Scan(Inside(x), Body(x) + tail, at + o),
              Scan(Inside(x), tail, at + o + b), Scan(Normal, rest, at + o + b + c),
              Blanks(o), Blanks(b), Closed(x), Inside(x));
  }

  lemma {:induction false} JoinThree(w: Scanned, u: Scanned, v: Scanned, r: Scanned, a: string, b: string, c: string,
                                     st: LexState)
    requires w == Join(Scanned(a, [], st), u) && u == Join(Scanned(b, [], st), v)
    requires v == Join(Scanned(c, [], Normal), r)
    ensures w == Join(Scanned(a + (b + c), [], Normal), r)
  {
    assert (a + (b + c)) + r.text == a + (b + (c + r.text));
  }

  lemma {:induction false} RemainsParts(x: Form, rest: string)
    requires Contained(x) && EndsBefore(x, rest)
    ensures Blanks(|Opening(x)|) + (Blanks(|Body(x)|) + Closed(x)) == Remains(x)
    ensures |Closed(x)| == |Closing(x)| >= 1 && |Opening(x)| >= 1
    ensures |Remains(x)| == |Opening(x)| + |Body(x)| + |Closing(x)|
  {
    OpeningTurn(x, rest);
    ClosingTurn(x, rest);
    hide TurnAt, Opening, Closing, Body, Closed, Contained, EndsBefore;
    BlanksAdd(|Opening(x)|, |Body(x)|, Closed(x));
  }

  lemma {:induction false} BlanksAdd(m: nat, n: nat, s: string)
    ensures Blanks(m) + (Blanks(n) + s) == Blanks(m + n) + s
  {
    assert Blanks(m) + Blanks(n) == Blanks(m + n);
    hide Blanks;
    assert Blanks(m) + (Blanks(n) + s) == (Blanks(m) + Blanks(n)) + s;
  }

  lemma {:induction false} WrittenSplit(x: Form, rest: string)
    ensures Written(x) + rest == Opening(x) + (Body(x) + (Closing(x) + rest))
    ensures |Written(x)| == |Opening(x)| + |Body(x)| + |Closing(x)|
  {
    hide Body, Opening, Closing;
    assert (Body(x) + Closing(x)) + rest == Body(x) + (Closing(x) + rest);
  }

  // ----- Tokens around a form -----

  /** Blanks and line ends only. */
  predicate Gap(s: string) {
    s != [] && forall k :: 0 <= k < |s| ==> s[k] == ' ' || s[k] == '\n'
  }

  lemma {:induction false} RemainsIsGap(x: Form)
    requires |Remains(x)| >= 1
    ensures Gap(Remains(x))
  {
  }

  /** Semicolon positions move with the text; nothing else depends on where a text starts. */
  lemma {:induction false} ScanShift(st: LexState, s: string, at: nat, delta: nat)
    requires WellFormed(st)
    ensures var r := Scan(st, s, at);
            var moved := Scan(st, s, at + delta);
            && moved.text == r.text && moved.final == r.final
            && moved.semicolons == Shift(r.semicolons, delta)
    decreases |s|
  {
    hide TurnAt, Shift;
    if s == [] {
      ShiftJoin([], [], delta);
    } else {
      var t := TurnAt(st, s);
      ScanShift(t.next, s[|t.out|..], at + |t.out|, delta);
      ShiftJoin(TurnScan(t, at).semicolons, Scan(t.next, s[|t.out|..], at + |t.out|).semicolons, delta);
      ShiftTurn(t, at, delta);
    }
  }

  lemma {:induction false} ShiftTurn(t: Turn, at: nat, delta: nat)
    ensures Shift(TurnScan(t, at).semicolons, delta) == TurnScan(t, at + delta).semicolons
  {
  }

  lemma {:induction false} ShiftJoin(a: seq<nat>, b: seq<nat>, delta: nat)
    ensures Shift(a + b, delta) == Shift(a, delta) + Shift(b, delta)
    ensures a == b == [] ==> Shift(a, delta) == []
  {
  }

  function Shift(xs: seq<nat>, delta: nat): seq<nat> {
    seq(|xs|, k requires 0 <= k < |xs| => xs[k] + delta)
  }

  /** No word goes on from one text to the other. */
  predicate WordsApart(a: string, b: string) {
    a != [] && b != [] ==> !IsIdentPart(a[|a| - 1]) || !IsIdentPart(b[0])
  }

  lemma {:induction false} RunWithin(a: string, b: string)
    requires WordsApart(a, b) && (a == [] && b != [] ==> !IsIdentPart(b[0]))
    ensures IdentRun(a + b) == IdentRun(a)
  {
    if a != [] && IsIdentPart(a[0]) {
      TakeDrop(a, b, 1);
      RunWithin(a[1..], b);
    } else if a == [] {
      assert a + b == b;
    }
  }

  /** How the words of a text are taken off its front. */
  lemma {:induction false} NextWord(s: string)
    requires s != []
    ensures var n := 1 + IdentRun(s[1..]);
            Identifiers(s) == if IsIdentStart(s[0]) then [s[..n]] + Identifiers(s[n..]) else Identifiers(s[1..])
  {
  }

  lemma {:induction false} NoNextWord(s: string)
    ensures s == [] ==> Identifiers(s) == []
  {
  }

  /** The words of two texts laid end to end are those of both. */
  lemma {:induction false} WordsJoin(a: string, b: string)
    requires WordsApart(a, b)
    ensures Identifiers(a + b) == Identifiers(a) + Identifiers(b)
    decreases |a|
  {
    hide Identifiers, IsIdentStart, IsIdentPart, IdentRun;
    NoNextWord(a);
    if a == [] {
      assert a + b == b;
    } else {
      NextWord(a);
      NextWord(a + b);
      TakeDrop(a, b, 1);
      if IsIdentStart(a[0]) {
        StartIsPart(a[0]);
        RunWithin(a[1..], b);
        var m := 1 + IdentRun(a[1..]);
        TakeDrop(a, b, m);
        WordsJoin(a[m..], b);
      } else {
        WordsJoin(a[1..], b);
      }
    }
  }

  lemma {:induction false} StartIsPart(c: char)
    requires IsIdentStart(c)
    ensures IsIdentPart(c)
  {
  }

  lemma {:induction false} NoStarts(s: string)
    requires forall k :: 0 <= k < |s| ==> !IsIdentStart(s[k])
    ensures Identifiers(s) == []
  {
    if s != [] {
      NoStarts(s[1..]);
    }
  }

  lemma {:induction false} TokensAround(a: string, gap: string, b: string)
    requires Gap(gap)
    ensures Tokens(a + (gap + b)) == Tokens(a) + Tokens(b)
  {
    assert Upper(gap) == gap;
    assert Upper(a + (gap + b)) == Upper(a) + (gap + Upper(b));
    NoStarts(gap);
    hide Upper, Identifiers;
    WordsJoin(gap, Upper(b));
    WordsJoin(Upper(a), gap + Upper(b));
  }

  /** Tokens of two texts scanned apart, the second standing delta characters further on. */
  function JudgeApart(a: Scanned, b: Scanned, delta: nat): LexResult {
    if b.final in {Normal, LineComment}
    then Lexed(Tokens(a.text) + Tokens(b.text), a.semicolons + Shift(b.semicolons, delta))
    else Unterminated
  }

  /** The form may stand between p and rest: p is scanned to the normal state and nothing straddles the seams. */
  predicate Between(p: string, x: Form, rest: string) {
    && Scan(Normal, p, 0).final == Normal && Sealed(Scan(Normal, p, 0).text, Written(x))
    && Contained(x) && EndsBefore(x, rest)
  }

  /**
   Whatever a form says, it leaves no token and no semicolon: the tokens of a statement with a form in
   it are those before it and those behind it, and the semicolons behind it move by its width.
   */
  lemma {:induction false} LexAroundForm(p: string, x: Form, rest: string)
    requires Between(p, x, rest)
    ensures Lex(p + (Written(x) + rest)) == JudgeApart(Scan(Normal, p, 0), Scan(Normal, rest, 0), |p| + |Written(x)|)
  {
    hide TurnAt, Scan, Tokens, Shift, Sealed, Contained, EndsBefore, Remains, Written;
    var n := |Written(x)|;
    SealedFront(Scan(Normal, p, 0).text, x, rest);
    ScanJoin(Normal, p, Written(x) + rest, 0);
    ScanForm(x, rest, |p|);
    ScanShift(Normal, rest, 0, |p| + n);
    RemainsIsGap(x);
    TokensAround(Scan(Normal, p, 0).text, Remains(x), Scan(Normal, rest, 0).text);
    assert [] + Scan(Normal, rest, |p| + n).semicolons == Scan(Normal, rest, |p| + n).semicolons;
  }

  lemma {:induction false} SealedFront(live: string, x: Form, rest: string)
    requires Sealed(live, Written(x)) && Contained(x)
    ensures Sealed(live, Written(x) + rest)
  {
  }

  /** A prefix that does not end in a dash, or an open tag, is sealed against every form. */
  lemma {:induction false} SealedAgainstForms(live: string, x: Form)
    requires Contained(x)
    requires x.LineNote? ==> live == [] || live[|live| - 1] != '-'
    requires x.DollarText? ==> !OpenTag(live)
    ensures Sealed(live, Written(x))
  {
    hide OpenTag;
  }

  // ----- Forms that are never closed -----

  /** What is left of a form that the statement ends in. */
  function Unclosed(x: Form): string {
    Opening(x) + Body(x)
  }

  /** The text does not close the form, and there is nothing behind it. */
  predicate StaysOpen(x: Form) {
    match x
    case DollarText(tag, text) => DollarTag(tag) == Some(tag) && forall i :: 0 <= i < |text| ==> !(tag <= text[i..])
    case _ => Contained(x)
  }

  lemma {:induction false} UnclosedSplit(x: Form)
    ensures Unclosed(x) == Opening(x) + Body(x) && |Unclosed(x)| == |Opening(x)| + |Body(x)|
  {
    hide Opening, Body;
  }

  lemma {:induction false} ScanUnclosed(x: Form, at: nat)
    requires StaysOpen(x)
    ensures WellFormed(Inside(x))
    ensures Scan(Normal, Unclosed(x), at) == Scanned(Blanks(|Unclosed(x)|), [], Inside(x))
  {
    hide *;
    NormalWellFormed();
    UnclosedSplit(x);
    UnclosedOpening(x, at);
    UnclosedBody(x, at + |Opening(x)|);
    MoreBlanksIn(|Opening(x)|, |Body(x)|, Inside(x));
  }

  lemma {:induction false} MoreBlanksIn(m: nat, n: nat, st: LexState)
    ensures Join(Scanned(Blanks(m), [], st), Scanned(Blanks(n), [], st)) == Scanned(Blanks(m + n), [], st)
  {
  }

  lemma {:induction false} UnclosedOpening(x: Form, at: nat)
    requires StaysOpen(x)
    ensures WellFormed(Inside(x))
    ensures Scan(Normal, Opening(x) + Body(x), at)
            == Join(Scanned(Blanks(|Opening(x)|), [], Inside(x)), Scan(Inside(x), Body(x), at + |Opening(x)|))
  {
    hide *;
    NormalWellFormed();
    UnclosedTurn(x);
    OneTurn(Normal, Opening(x), Body(x), at, Turn(Blanks(|Opening(x)|), Inside(x), false));
  }

  lemma {:induction false} UnclosedTurn(x: Form)
    requires StaysOpen(x)
    ensures WellFormed(Inside(x)) && |Opening(x)| >= 1
    ensures TurnAt(Normal, Opening(x) + Body(x)) == Turn(Blanks(|Opening(x)|), Inside(x), false)
  {
    if x.DollarText? {
      TagAcross(x.tag, x.text);
    }
    hide Escape;
  }

  lemma {:induction false} UnclosedBody(x: Form, at: nat)
    requires StaysOpen(x) && WellFormed(Inside(x))
    ensures Scan(Inside(x), Body(x), at) == Scanned(Blanks(|Body(x)|), [], Inside(x))
  {
    hide *;
    var st := Inside(x);
    if x.Literal? || x.Name? {
      EscapedBody(x);
      ScanEscaped(st, x.text, [], at);
    } else {
      PlainBody(x);
      forall i | 0 <= i < |x.text|
        ensures TurnAt(st, (x.text + [])[i..]) == Turn(Blanks(1), st, false)
      {
        OpenTurn(x, i);
      }
      BlankRun(st, x.text, [], at);
    }
    assert Body(x) + [] == Body(x);
    ScanNothing(st, at + |Body(x)|);
    NothingBehind(Blanks(|Body(x)|), st);
  }

  lemma {:induction false} OpenTurn(x: Form, i: nat)
    requires StaysOpen(x) && WellFormed(Inside(x)) && i < |x.text| && !x.Literal? && !x.Name?
    ensures TurnAt(Inside(x), (x.text + [])[i..]) == Turn(Blanks(1), Inside(x), false)
  {
    assert x.text + [] == x.text;
    assert x.text[i..][0] == x.text[i];
    assert i + 1 < |x.text| ==> x.text[i..][1] == x.text[i + 1];
  }

  lemma {:induction false} NothingBehind(text: string, st: LexState)
    ensures Join(Scanned(text, [], st), Scanned([], [], st)) == Scanned(text, [], st)
  {
  }

  /**
   A statement that ends inside a form is refused as unterminated, except inside a comment to the end
   of the line, which leaves the tokens and semicolons before it.
   */
  lemma {:induction false} UnclosedForm(p: string, x: Form)
    requires Scan(Normal, p, 0).final == Normal && Sealed(Scan(Normal, p, 0).text, Unclosed(x)) && StaysOpen(x)
    ensures Lex(p + Unclosed(x))
            == if x.LineNote? then Lexed(Tokens(Scan(Normal, p, 0).text), Scan(Normal, p, 0).semicolons)
               else Unterminated
  {
    hide *;
    UnclosedLength(x);
    NormalWellFormed();
    var a := Scan(Normal, p, 0);
    ScanJoin(Normal, p, Unclosed(x), 0);
    ScanUnclosed(x, |p|);
    BlankEnd(a.text, |Unclosed(x)|);
    JudgeBlankEnd(p + Unclosed(x), a, |Unclosed(x)|, Inside(x));
  }

  lemma {:induction false} JudgeBlankEnd(s: string, a: Scanned, n: nat, st: LexState)
    requires Scan(Normal, s, 0) == Join(a, Scanned(Blanks(n), [], st)) && Tokens(a.text + Blanks(n)) == Tokens(a.text)
    ensures Lex(s) == if st in {Normal, LineComment} then Lexed(Tokens(a.text), a.semicolons) else Unterminated
  {
    hide Scan, Tokens, Blanks;
  }

  lemma {:induction false} BlankEnd(text: string, n: nat)
    requires n >= 1
    ensures Tokens(text + Blanks(n)) == Tokens(text)
  {
    assert Blanks(n) + [] == Blanks(n);
    assert Gap(Blanks(n));
    NoTokens();
    hide Tokens, Gap, Blanks;
    TokensAround(text, Blanks(n), []);
  }

  lemma {:induction false} UnclosedLength(x: Form)
    requires StaysOpen(x)
    ensures |Unclosed(x)| >= 1
    ensures Inside(x) in {Normal, LineComment} <==> x.LineNote?
  {
  }

  lemma {:induction false} NoTokens()
    ensures Tokens([]) == []
  {
  }

  // ----- The verdict -----

  lemma {:induction false} SameTail(p: string, form: string, rest: string, b: seq<nat>)
    requires b != [] && b[0] < |rest|
    ensures OnlyBlankAfter(p + (form + rest), ([] + Shift(b, |p| + |form|))[0]) <==> OnlyBlankAfter(rest, b[0])
  {
    var moved := b[0] + |p| + |form|;
    assert (p + (form + rest))[moved + 1..] == rest[b[0] + 1..];
  }

  lemma {:induction false} FormIsNotBlank(p: string, form: string, rest: string, semicolon: nat)
    requires semicolon < |p| && form != [] && !IsSpace(form[0])
    ensures !OnlyBlankAfter(p + (form + rest), semicolon)
  {
    var s := p + (form + rest);
    var after := s[semicolon + 1..];
    assert after[|p| - semicolon - 1] == s[|p|] == form[0];
    StripEmpty(after);
  }

  lemma {:induction false} OpensVisibly(x: Form)
    requires Contained(x)
    ensures Written(x) != [] && !IsSpace(Written(x)[0])
  {
  }

  /** Two statements with the same tokens are judged alike if what follows their first semicolons is. */
  lemma {:induction false} SameVerdict(s: string, e: string, mode: string)
    requires Lex(s).Unterminated? <==> Lex(e).Unterminated?
    requires Lex(s).Lexed? ==>
               var x, y := Lex(s).semicolons, Lex(e).semicolons;
               && Lex(s).tokens == Lex(e).tokens && |x| == |y|
               && (x != [] ==> (OnlyBlankAfter(s, x[0]) <==> OnlyBlankAfter(e, y[0])))
    ensures ValidateSql(s, mode) == ValidateSql(e, mode)
  {
  }

  /** The gate judges a statement alike whatever form stands at a place, and whatever the form says. */
  lemma {:induction false} VerdictIgnoresForms(p: string, x: Form, y: Form, rest: string, mode: string)
    requires Between(p, x, rest) && Between(p, y, rest)
    ensures ValidateSql(p + (Written(x) + rest), mode) == ValidateSql(p + (Written(y) + rest), mode)
  {
    hide *;
    NormalWellFormed();
    var a, b := Scan(Normal, p, 0), Scan(Normal, rest, 0);
    LexAroundForm(p, x, rest);
    LexAroundForm(p, y, rest);
    if Lex(p + (Written(x) + rest)).Lexed? {
      JudgedAlike(a, b, |p| + |Written(x)|, |p| + |Written(y)|);
      FirstSemicolon(p, x, rest);
      FirstSemicolon(p, y, rest);
    }
    JudgedAlike(a, b, |p| + |Written(x)|, |p| + |Written(y)|);
    SameVerdict(p + (Written(x) + rest), p + (Written(y) + rest), mode);
  }

  lemma {:induction false} JudgedAlike(a: Scanned, b: Scanned, m: nat, n: nat)
    ensures JudgeApart(a, b, m).Unterminated? <==> JudgeApart(a, b, n).Unterminated?
    ensures JudgeApart(a, b, m).Lexed? ==>
              && JudgeApart(a, b, m).tokens == JudgeApart(a, b, n).tokens
              && |JudgeApart(a, b, m).semicolons| == |JudgeApart(a, b, n).semicolons|
              && |JudgeApart(a, b, m).semicolons| == |a.semicolons| + |b.semicolons|
  {
  }

  lemma {:induction false} BetweenMeans(p: string, x: Form, rest: string)
    requires Between(p, x, rest)
    ensures Contained(x) && EndsBefore(x, rest) && WellFormed(Normal) && Scan(Normal, p, 0).final == Normal
    ensures Sealed(Scan(Normal, p, 0).text, Written(x))
  {
  }

  /** Whether only whitespace follows the first semicolon does not depend on the form. */
  lemma {:induction false} FirstSemicolon(p: string, x: Form, rest: string)
    requires Between(p, x, rest) && Lex(p + (Written(x) + rest)).Lexed?
    ensures var (a, b) := (Scan(Normal, p, 0).semicolons, Scan(Normal, rest, 0).semicolons);
            var all := Lex(p + (Written(x) + rest)).semicolons;
            all != [] ==> (OnlyBlankAfter(p + (Written(x) + rest), all[0])
                           <==> (a == [] && b != [] && OnlyBlankAfter(rest, b[0])))
  {
    hide *;
    NormalWellFormed();
    BetweenMeans(p, x, rest);
    LexAroundForm(p, x, rest);
    SemicolonRange(Normal, p, 0);
    SemicolonRange(Normal, rest, 0);
    OpensVisibly(x);
    FirstApart(p, Written(x), rest, Scan(Normal, p, 0), Scan(Normal, rest, 0));
  }

  lemma {:induction false} FirstApart(p: string, form: string, rest: string, a: Scanned, b: Scanned)
    requires AtSemicolons(a.semicolons, p, 0) && AtSemicolons(b.semicolons, rest, 0)
    requires form != [] && !IsSpace(form[0]) && JudgeApart(a, b, |p| + |form|).Lexed?
    ensures var all := JudgeApart(a, b, |p| + |form|).semicolons;
            all != [] ==> (OnlyBlankAfter(p + (form + rest), all[0])
                           <==> (a.semicolons == [] && b.semicolons != [] && OnlyBlankAfter(rest, b.semicolons[0])))
  {
    hide OnlyBlankAfter, IsSpace, Tokens;
    if a.semicolons != [] {
      FormIsNotBlank(p, form, rest, a.semicolons[0]);
    } else if b.semicolons != [] {
      SameTail(p, form, rest, b.semicolons);
    }
  }

  // ----- Every statement -----

  /** A text behind an opening quote: up to the closing one, or to the end when there is none. */
  lemma {:induction false} SplitQuoted(quote: char, s: string) returns (q: string, rest: string, closed: bool)
    ensures s == Escape(quote, q) + (if closed then [quote] + rest else [])
    ensures closed && rest != [] ==> rest[0] != quote
    decreases |s|
  {
    if s == [] {
      q, rest, closed := [], [], false;
    } else if s[0] != quote {
      var inner;
      inner, rest, closed := SplitQuoted(quote, s[1..]);
      q := [s[0]] + inner;
      assert s == [s[0]] + s[1..] && q[1..] == inner;
    } else if |s| >= 2 && s[1] == quote {
      var inner;
      inner, rest, closed := SplitQuoted(quote, s[2..]);
      q := [quote] + inner;
      assert s == [quote, quote] + s[2..] && q[1..] == inner;
    } else {
      q, rest, closed := [], s[1..], true;
      assert s == [quote] + s[1..];
    }
  }

  lemma {:induction false} SplitLine(s: string) returns (text: string, rest: string, closed: bool)
    ensures s == text + (if closed then "\n" + rest else []) && '\n' !in text
  {
    if s == [] {
      text, rest, closed := [], [], false;
    } else if s[0] == '\n' {
      text, rest, closed := [], s[1..], true;
    } else {
      text, rest, closed := SplitLine(s[1..]);
      text := [s[0]] + text;
      assert s == [s[0]] + s[1..];
    }
  }

  lemma {:induction false} SplitBlock(s: string) returns (text: string, rest: string, closed: bool)
    ensures s == text + (if closed then "*/" + rest else []) && Contained(BlockNote(text))
  {
    if s == [] {
      text, rest, closed := [], [], false;
    } else if IsPair(s, '*', '/') {
      text, rest, closed := [], s[2..], true;
      assert s == "*/" + s[2..];
    } else {
      text, rest, closed := SplitBlock(s[1..]);
      assert s == [s[0]] + s[1..];
      assert text != [] ==> s[1] == text[0];
      var longer := [s[0]] + text;
      assert forall i :: 0 < i < |longer| ==> longer[i] == text[i - 1];
      text := longer;
    }
  }

  lemma {:induction false} SplitDollar(tag: string, s: string) returns (text: string, rest: string, closed: bool)
    requires DollarTag(tag) == Some(tag)
    ensures s == text + (if closed then tag + rest else [])
    ensures if closed then Contained(DollarText(tag, text)) else StaysOpen(DollarText(tag, text))
  {
    if s == [] {
      text, rest, closed := [], [], false;
    } else if tag <= s {
      text, rest, closed := [], s[|tag|..], true;
      assert s == tag + rest;
    } else {
      text, rest, closed := SplitDollar(tag, s[1..]);
      assert s == [s[0]] + s[1..];
      LongerDollar(tag, s[0], text, rest, closed, s);
      text := [s[0]] + text;
    }
  }

  lemma {:induction false} LongerDollar(tag: string, c: char, text: string, rest: string, closed: bool, s: string)
    requires DollarTag(tag) == Some(tag) && !(tag <= s)
    requires s == [c] + (text + (if closed then tag + rest else []))
    requires if closed then Contained(DollarText(tag, text)) else StaysOpen(DollarText(tag, text))
    ensures var longer := DollarText(tag, [c] + text);
            if closed then Contained(longer) else StaysOpen(longer)
  {
    var longer, behind := [c] + text, if closed then tag else [];
    forall i | 0 <= i < |longer|
      ensures !(tag <= (longer + behind)[i..])
    {
      if i == 0 {
        assert (longer + behind)[0..] + (if closed then rest else []) == s;
        FrontOf(tag, (longer + behind)[0..], if closed then rest else [], s);
      } else {
        assert (longer + behind)[i..] == (text + behind)[i - 1..];
        assert text + [] == text;
      }
    }
    assert longer + [] == longer;
  }

  lemma {:induction false} FrontOf(tag: string, a: string, b: string, s: string)
    requires a + b == s && !(tag <= s)
    ensures !(tag <= a)
  {
  }

  /** The form that opens at the front of a text, closed or not. */
  lemma {:induction false} FormAtFront(s: string) returns (x: Form, rest: string, closed: bool)
    requires s != [] && !PlainFront(s)
    ensures closed ==> s == Written(x) + rest && Contained(x) && EndsBefore(x, rest)
    ensures !closed ==> s == Unclosed(x) && StaysOpen(x)
  {
    var text: string;
    if s[0] == '\'' || s[0] == '"' {
      text, rest, closed := SplitQuoted(s[0], s[1..]);
      x := if s[0] == '\'' then Literal(text) else Name(text);
      assert s == [s[0]] + s[1..];
      hide Escape;
    } else if IsPair(s, '-', '-') {
      text, rest, closed := SplitLine(s[2..]);
      x := LineNote(text);
      assert s == "--" + s[2..];
    } else if IsPair(s, '/', '*') {
      text, rest, closed := SplitBlock(s[2..]);
      x := BlockNote(text);
      assert s == "/*" + s[2..];
    } else {
      var tag := DollarTag(s).value;
      TagOfTag(s);
      text, rest, closed := SplitDollar(tag, s[|tag|..]);
      x := DollarText(tag, text);
      assert s == tag + s[|tag|..];
      hide DollarTag;
    }
    FormParts(x, rest);
  }

  lemma {:induction false} FormParts(x: Form, rest: string)
    ensures Written(x) + rest == Opening(x) + (Body(x) + (Closing(x) + rest))
    ensures Unclosed(x) == Opening(x) + (Body(x) + [])
  {
    WrittenSplit(x, rest);
    hide Opening, Body, Closing;
    assert Body(x) + [] == Body(x);
  }

  lemma {:induction false} TagOfTag(s: string)
    requires DollarTag(s).Some?
    ensures DollarTag(DollarTag(s).value) == DollarTag(s)
  {
    var tag := DollarTag(s).value;
    if IsIdentStart(s[1]) {
      var n := IdentRun(s[2..]);
      IdentRunIsIdent(s[2..]);
      assert forall k :: 0 <= k < n ==> tag[2..][k] == s[2..][k];
      assert tag[2..][n] == '$';
      IdentRunPrefix(tag[2..], n);
      assert tag[..n + 3] == tag;
    } else {
      assert tag[..2] == tag;
    }
  }

  /** How much of a text stands before the first form. */
  lemma {:induction false} FirstForm(s: string) returns (n: nat)
    ensures n <= |s| && (forall i :: 0 <= i < n ==> PlainFront(s[i..])) && (n < |s| ==> !PlainFront(s[n..]))
  {
    if s == [] || !PlainFront(s) {
      n := 0;
      assert s[0..] == s;
    } else {
      n := FirstForm(s[1..]);
      n := n + 1;
      assert s[0..] == s;
      assert forall i :: 0 < i <= |s| ==> s[i..] == s[1..][i - 1..];
    }
  }

  /** Text up to the first form is plain, and nothing straddles the cut. */
  lemma {:induction false} PlainCut(s: string, n: nat)
    requires n <= |s| && (forall i :: 0 <= i < n ==> PlainFront(s[i..])) && (n < |s| ==> !PlainFront(s[n..]))
    ensures Plain(s[..n]) && Sealed(s[..n], s[n..])
  {
    hide *;
    PlainPart(s, n);
    if 0 < n < |s| {
      CutChars(s, n);
      OpenersAt(s[n..]);
      if OpenTag(s[..n]) && s[n] == '$' {
        OpenTagCut(s, n);
      }
      SealedByChars(s[..n], s[n..]);
    } else {
      SealedEnds(s, n);
    }
  }

  lemma {:induction false} SealedEnds(s: string, n: nat)
    requires n <= |s| && !(0 < n < |s|)
    ensures Sealed(s[..n], s[n..])
  {
  }

  lemma {:induction false} SealedByChars(p: string, t: string)
    requires p != [] && t != [] && !IsIdentPart(t[0]) && t[0] != '*' && !(p[|p| - 1] == '-' && t[0] == '-')
    requires !(OpenTag(p) && t[0] == '$')
    ensures Sealed(p, t)
  {
    hide OpenTag;
  }

  /** The last character before the cut does not open a comment with the first one behind it. */
  lemma {:induction false} CutChars(s: string, n: nat)
    requires 0 < n < |s| && PlainFront(s[n - 1..])
    ensures !(s[..n][n - 1] == '-' && s[n..][0] == '-')
  {
    var last := s[n - 1..];
    assert last[0] == s[n - 1] && last[1] == s[n];
    hide DollarTag;
  }

  /** An open tag before a dollar sign opens a form before it. */
  lemma {:induction false} OpenTagCut(s: string, n: nat)
    requires 0 < n < |s| && OpenTag(s[..n]) && s[n] == '$'
    ensures exists i :: 0 <= i < n && !PlainFront(s[i..])
  {
    var i :| 0 <= i < |s[..n]| && TagFront(s[..n][i..]);
    hide TagFront;
    OpenTagCloses(s[..n][i..], s[n..]);
    AcrossCut(s, n, i);
    assert !PlainFront(s[i..]);
  }

  lemma {:induction false} AcrossCut(s: string, n: nat, i: nat)
    requires i <= n <= |s|
    ensures s[..n][i..] + s[n..] == s[i..]
  {
  }

  lemma {:induction false} PlainPart(s: string, n: nat)
    requires n <= |s| && forall i :: 0 <= i < n ==> PlainFront(s[i..])
    ensures Plain(s[..n])
  {
    hide PlainFront;
    forall i | 0 <= i < n
      ensures PlainFront(s[..n][i..])
    {
      AcrossCut(s, n, i);
      FrontCut(s[..n][i..], s[n..]);
    }
  }

  lemma {:induction false} OpenersAt(t: string)
    requires t != [] && !PlainFront(t)
    ensures !IsIdentPart(t[0]) && (t[0] == '-' ==> IsPair(t, '-', '-')) && t[0] != '*'
  {
  }

  lemma {:induction false} OpenTagCloses(p: string, t: string)
    requires TagFront(p) && t != [] && t[0] == '$'
    ensures DollarTag(p + t).Some?
  {
    var s := p + t;
    if |p| >= 2 {
      var n := |p| - 2;
      assert forall k :: 0 <= k < n ==> s[2..][k] == p[k + 2];
      assert s[2..][n] == '$';
      IdentRunPrefix(s[2..], n);
      assert s[n + 2] == '$';
    }
  }

  lemma {:induction false} FrontCut(p: string, t: string)
    requires p != [] && PlainFront(p + t)
    ensures PlainFront(p)
  {
    if p[0] == '$' {
      TagAcross(p, t);
    }
    assert |p| >= 2 ==> (p + t)[1] == p[1];
  }

  /** The parts of any statement: plain text, and the first form behind it, closed or not. */
  lemma {:induction false} SplitStatement(s: string) returns (p: string, x: Form, rest: string, closed: bool)
    ensures Plain(p) && p <= s
    ensures p != s ==> if closed then s == p + (Written(x) + rest) && Between(p, x, rest)
                       else s == p + Unclosed(x) && StaysOpen(x) && Sealed(p, Unclosed(x))
  {
    hide *;
    var n := FirstForm(s);
    PlainCut(s, n);
    p := s[..n];
    x, rest, closed := Literal([]), [], false;
    if n < |s| {
      x, rest, closed := FormAtFront(s[n..]);
      assert s == p + s[n..];
      if closed {
        PlainBetween(p, x, rest);
      }
    } else {
      assert s[..n] == s;
    }
  }

  lemma {:induction false} PlainBetween(p: string, x: Form, rest: string)
    requires Plain(p) && Sealed(p, Written(x) + rest) && Contained(x) && EndsBefore(x, rest)
    ensures Between(p, x, rest)
  {
    PlainIsCopied(p, 0);
    OpensVisibly(x);
    hide Plain, Contained, EndsBefore, Scan, OpenTag;
    assert (Written(x) + rest)[0] == Written(x)[0];
  }

  /**
   The forms say all about the lexer: any statement is plain text, whose tokens and semicolons are its
   own; or plain text before a form, which leaves what is before and behind it; or plain text before a
   form that is never closed, which is refused unless it is a comment to the end of the line.
   */
  lemma {:induction false} EveryStatement(s: string)
    ensures || (Plain(s) && Lex(s) == Lexed(Tokens(s), SemicolonsIn(s, 0)))
            || (exists p, x, rest ::
                  Plain(p) && Between(p, x, rest) && s == p + (Written(x) + rest)
                  && Lex(s) == JudgeApart(Scanned(p, SemicolonsIn(p, 0), Normal), Scan(Normal, rest, 0),
                                          |p| + |Written(x)|))
            || (exists p, x ::
                  Plain(p) && StaysOpen(x) && s == p + Unclosed(x)
                  && Lex(s) == if x.LineNote? then Lexed(Tokens(p), SemicolonsIn(p, 0)) else Unterminated)
  {
    hide *;
    var p, x, rest, closed := SplitStatement(s);
    NormalWellFormed();
    PlainIsCopied(p, 0);
    if p == s {
      PlainLex(s);
    } else if closed {
      LexAroundForm(p, x, rest);
    } else {
      UnclosedForm(p, x);
    }
  }

  lemma {:induction false} PlainLex(s: string)
    requires Plain(s)
    ensures Lex(s) == Lexed(Tokens(s), SemicolonsIn(s, 0))
  {
    PlainIsCopied(s, 0);
    hide Scan, Tokens, SemicolonsIn, Plain;
  }

  // ----- Words -----

  predicate IsDigit(c: char) {
    '0' <= c <= '9'
  }

  /** What words are made of: letters, digits and underscores. */
  predicate InWord(c: char) {
    c == '_' || 'A' <= c <= 'Z' || 'a' <= c <= 'z' || IsDigit(c)
  }

  /** A word of plain text; it does not start with a digit. */
  predicate IsWord(w: string) {
    w != [] && !IsDigit(w[0]) && forall k :: 0 <= k < |w| ==> InWord(w[k])
  }

  lemma {:induction false} InWordIsPart()
    ensures forall c :: InWord(c) <==> IsIdentPart(c)
    ensures forall c :: InWord(c) && !IsDigit(c) <==> IsIdentStart(c)
  {
  }

  /** A dollar tag is two dollar signs, with a word or nothing between them. */
  lemma {:induction false} TagsAre(s: string, tag: string)
    requires IsTag(tag)
    ensures DollarTag(tag + s) == Some(tag)
  {
    InWordIsPart();
    if |tag| > 2 {
      var w := tag[1..|tag| - 1];
      var t := tag + s;
      assert forall k :: 0 <= k < |tag| - 3 ==> t[2..][k] == w[k + 1];
      assert t[2..][|tag| - 3] == '$';
      assert t[1] == w[0];
      IdentRunPrefix(t[2..], |tag| - 3);
      assert t[..|tag|] == tag;
    } else {
      assert (tag + s)[..2] == tag;
    }
  }

  predicate IsTag(tag: string) {
    && |tag| >= 2 && tag[0] == '$' && tag[|tag| - 1] == '$'
    && (|tag| > 2 ==> IsWord(tag[1..|tag| - 1]))
  }

  lemma {:induction false} OnlyTags(s: string)
    ensures DollarTag(s).Some? ==> IsTag(DollarTag(s).value) && DollarTag(s).value <= s
  {
    InWordIsPart();
    if DollarTag(s).Some? && IsIdentStart(s[1]) {
      var tag := DollarTag(s).value;
      IdentRunIsIdent(s[2..]);
      var w := tag[1..|tag| - 1];
      assert forall k :: 1 <= k < |w| ==> w[k] == s[2..][k - 1];
      assert w[0] == s[1];
    }
  }

  lemma {:induction false} WordFirst(w: string, b: string)
    requires IsWord(w) && (b == [] || !InWord(b[0]))
    ensures Identifiers(w + b) == [w] + Identifiers(b)
  {
    var s := w + b;
    InWordIsPart();
    assert forall k :: 0 <= k < |w| - 1 ==> s[1..][k] == w[k + 1];
    assert b != [] ==> s[1..][|w| - 1] == b[0];
    IdentRunPrefix(s[1..], |w| - 1);
    assert s[..|w|] == w && s[|w|..] == b;
  }

  /** The upper case of a letter, any other character itself. */
  predicate IsUpperOf(u: string, w: string) {
    && |u| == |w|
    && forall k :: 0 <= k < |w| ==>
         if 'a' <= w[k] <= 'z' then u[k] as int == w[k] as int - 32 else u[k] == w[k]
  }

  lemma {:induction false} UpperIs(w: string)
    ensures IsUpperOf(Upper(w), w)
    ensures IsWord(w) ==> IsWord(Upper(w))
  {
  }

  /** Every word is one token, in upper case; what stands around it has the tokens it has alone. */
  lemma {:induction false} WordIsToken(a: string, w: string, b: string)
    requires IsWord(w) && (a == [] || !InWord(a[|a| - 1])) && (b == [] || !InWord(b[0]))
    ensures exists u :: IsUpperOf(u, w) && Tokens(a + (w + b)) == Tokens(a) + ([u] + Tokens(b))
  {
    assert Upper(a + (w + b)) == Upper(a) + (Upper(w) + Upper(b));
    UpperIs(w);
    assert a != [] ==> Upper(a)[|a| - 1] == UpperChar(a[|a| - 1]);
    assert b != [] ==> Upper(b)[0] == UpperChar(b[0]);
    InWordIsPart();
    hide Upper, IsUpperOf;
    WordsJoin(Upper(a), Upper(w) + Upper(b));
    WordFirst(Upper(w), Upper(b));
    assert IsUpperOf(Upper(w), w);
  }

  /** Text without letters and underscores has no token. */
  lemma {:induction false} NoWords(s: string)
    requires forall k :: 0 <= k < |s| ==> IsDigit(s[k]) || !InWord(s[k])
    ensures Tokens(s) == []
  {
    InWordIsPart();
    assert forall k :: 0 <= k < |s| ==> !IsIdentStart(Upper(s)[k]);
    hide Upper;
    NoStarts(Upper(s));
  }

  // ----- What the gate lets through -----

  /**
   A statement passes exactly when it lexes, its first word is one of the mode's, none of its words is
   forbidden in the mode, a schema statement goes on with an object it may change, and nothing but
   whitespace follows its first semicolon.
   */
  lemma {:induction false} GateAccepts(statement: string, mode: string)
    ensures ValidateSql(statement, mode) == None
            <==> && Lex(statement).Lexed?
                 && var (tokens, semicolons) := (Lex(statement).tokens, Lex(statement).semicolons);
                    && tokens != []
                    && (|| (mode == "QUERY" && tokens[0] in {"SELECT", "TABLE", "VALUES", "WITH"}
                            && forall w :: w in tokens ==>
                                 w !in {"INSERT", "UPDATE", "DELETE", "CREATE", "ALTER", "DROP"})
                        || (mode == "MUTATION" && tokens[0] in {"INSERT", "UPDATE", "DELETE"})
                        || (mode == "SCHEMA" && |tokens| >= 2
                            && (|| (tokens[0] in {"CREATE", "ALTER", "DROP"} && tokens[1] == "TABLE")
                                || (tokens[0] in {"CREATE", "DROP"} && tokens[1] in {"INDEX", "VIEW"}))))
                    && (forall w :: w in tokens ==>
                          w !in {"ANALYZE", "CALL", "COMMENT", "COPY", "DO", "EXECUTE", "GRANT", "LOCK", "LO_EXPORT",
                                 "LO_IMPORT", "MERGE", "PG_CANCEL_BACKEND", "PG_READ_FILE", "PG_TERMINATE_BACKEND",
                                 "PG_WRITE_FILE", "REFRESH", "REINDEX", "REVOKE", "SECURITY", "SET_CONFIG",
                                 "TRUNCATE", "VACUUM"})
                    && (semicolons == []
                        || (|semicolons| == 1 && forall k :: semicolons[0] < k < |statement| ==> IsSpace(statement[k])))
  {
    if Lex(statement).Lexed? {
      WordsPass(Lex(statement).tokens, mode);
      if Lex(statement).semicolons != [] {
        BlankBehind(statement);
      }
    }
    hide Lex, CheckTokens, OnlyBlankAfter, IsSpace;
  }

  lemma {:induction false} WordsPass(tokens: seq<string>, mode: string)
    ensures CheckTokens(tokens, mode) == None
            <==> && tokens != []
                 && (|| (mode == "QUERY" && tokens[0] in {"SELECT", "TABLE", "VALUES", "WITH"}
                         && forall w :: w in tokens ==>
                              w !in {"INSERT", "UPDATE", "DELETE", "CREATE", "ALTER", "DROP"})
                     || (mode == "MUTATION" && tokens[0] in {"INSERT", "UPDATE", "DELETE"})
                     || (mode == "SCHEMA" && |tokens| >= 2
                         && (|| (tokens[0] in {"CREATE", "ALTER", "DROP"} && tokens[1] == "TABLE")
                             || (tokens[0] in {"CREATE", "DROP"} && tokens[1] in {"INDEX", "VIEW"}))))
                 && (forall w :: w in tokens ==>
                       w !in {"ANALYZE", "CALL", "COMMENT", "COPY", "DO", "EXECUTE", "GRANT", "LOCK", "LO_EXPORT",
                              "LO_IMPORT", "MERGE", "PG_CANCEL_BACKEND", "PG_READ_FILE", "PG_TERMINATE_BACKEND",
                              "PG_WRITE_FILE", "REFRESH", "REINDEX", "REVOKE", "SECURITY", "SET_CONFIG",
                              "TRUNCATE", "VACUUM"})
  {
  }

  lemma {:induction false} BlankBehind(statement: string)
    requires Lex(statement).Lexed? && Lex(statement).semicolons != []
    ensures var at := Lex(statement).semicolons[0];
            OnlyBlankAfter(statement, at) <==> forall k :: at < k < |statement| ==> IsSpace(statement[k])
  {
    SemicolonRange(Normal, statement, 0);
    LexSemicolons(statement);
    hide Lex, Scan, IsSpace, Strip;
    var at := Lex(statement).semicolons[0];
    var behind := statement[at + 1..];
    StripEmpty(behind);
    assert forall k :: at < k < |statement| ==> statement[k] == behind[k - at - 1];
    assert forall k :: 0 <= k < |behind| ==> behind[k] == statement[at + 1 + k];
  }

  lemma {:induction false} LexSemicolons(statement: string)
    ensures Lex(statement).Lexed? ==> Lex(statement).semicolons == Scan(Normal, statement, 0).semicolons
  {
  }

  /** No statement passes in two modes. */
  lemma {:induction false} OneModeOnly(statement: string, mode: string, other: string)
    requires ValidateSql(statement, mode) == None && ValidateSql(statement, other) == None
    ensures mode == other
  {
    hide Lex;
  }
}
