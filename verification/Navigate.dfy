/** Dot-notation query paths over JSON-like trees (common/navigate.go). */
module Navigation {
  import opened Wrappers
  import opened Text

  datatype Part = Key(name: string) | Index(idx: int) | Wildcard

  // ----- decimal integers (strconv.Atoi and %d) -----

  const MIN_INT: int := -0x8000_0000_0000_0000
  const MAX_INT: int := 0x7FFF_FFFF_FFFF_FFFF

  predicate IsDigit(ch: char) {
    '0' <= ch <= '9'
  }

  predicate AllDigits(s: string) {
    s != [] && forall k :: 0 <= k < |s| ==> IsDigit(s[k])
  }

  function DigitValue(ch: char): nat {
    if IsDigit(ch) then ch as int - '0' as int else 0
  }

  /** The value of the first n digits. */
  function Num(s: string, n: nat): nat
    requires n <= |s|
  {
    if n == 0 then 0 else 10 * Num(s, n - 1) + DigitValue(s[n - 1])
  }

  function Atoi(s: string): Option<int> {
    if s == [] then None
    else
      var body := if s[0] == '+' || s[0] == '-' then s[1..] else s;
      if !AllDigits(body) then None
      else
        var n: int := Num(body, |body|);
        var v := if s[0] == '-' then -n else n;
        if MIN_INT <= v <= MAX_INT then Some(v) else None
  }

  function DigitChar(d: nat): (ch: char)
    requires d < 10
    ensures IsDigit(ch) && DigitValue(ch) == d
  {
    ('0' as int + d) as char
  }

  function Decimal(n: nat): string {
    if n < 10 then [DigitChar(n)] else Decimal(n / 10) + [DigitChar(n % 10)]
  }

  function Format(i: int): string {
    if i < 0 then "-" + Decimal(-i) else Decimal(i)
  }

  lemma {:induction false} NumPrefix(a: string, b: string, n: nat)
    requires n <= |a| && a <= b
    ensures Num(a, n) == Num(b, n)
  {
    if n > 0 {
      NumPrefix(a, b, n - 1);
    }
  }

  lemma {:induction false} DecimalValue(n: nat)
    ensures AllDigits(Decimal(n)) && Num(Decimal(n), |Decimal(n)|) == n
  {
    var s := Decimal(n);
    if n < 10 {
      assert Num(s, 0) == 0;
    } else {
      var t := Decimal(n / 10);
      DecimalValue(n / 10);
      NumPrefix(t, s, |t|);
      assert s[|t|] == DigitChar(n % 10);
    }
  }

  /** Reading a printed integer gives it back. */
  lemma FormatRoundTrip(i: int)
    requires MIN_INT <= i <= MAX_INT
    ensures Atoi(Format(i)) == Some(i) && Format(i) != "*" && ']' !in Format(i)
  {
    var n: nat := if i < 0 then -i else i;
    DecimalValue(n);
    var d := Decimal(n);
    assert IsDigit(d[0]);
    if i < 0 {
      assert Format(i)[1..] == d;
    }
    forall k | 0 <= k < |Format(i)| ensures Format(i)[k] != ']' {
      assert i < 0 && k > 0 ==> Format(i)[k] == d[k - 1];
    }
    assert Format(i)[0] != '*';
  }

  lemma {:induction false} DecimalCanonical(n: nat)
    ensures Decimal(n) != "" && (Decimal(n)[0] == '0' <==> n == 0) && (n == 0 ==> Decimal(n) == "0")
  {
    if n >= 10 {
      DecimalCanonical(n / 10);
      assert Decimal(n)[0] == Decimal(n / 10)[0];
    }
  }

  /** Integers are printed without leading zeros, and signed exactly when negative. */
  lemma FormatCanonical(i: int)
    ensures Format(i) != "" && (Format(i)[0] == '-' <==> i < 0)
    ensures Format(i)[0] == '0' <==> i == 0
    ensures i < 0 ==> |Format(i)| > 1 && Format(i)[1] != '0'
    ensures i == 0 ==> Format(i) == "0"
  {
    DecimalCanonical(if i < 0 then -i else i);
    DecimalValue(if i < 0 then -i else i);
  }

  // ----- ParsePath -----

  /** A bare key, or the text between brackets. */
  datatype Token = Bare(text: string) | Boxed(inner: string)

  function Meaning(t: Token): Part {
    match t
    case Bare(text) => Key(text)
    case Boxed(inner) =>
      if inner == "*" then Wildcard
      else if Atoi(inner).Some? then Index(Atoi(inner).value)
      else Key(inner)
  }

  function Meanings(ts: seq<Token>): seq<Part> {
    seq(|ts|, k requires 0 <= k < |ts| => Meaning(ts[k]))
  }

  /** Where an unbracketed key that starts at or before `i` ends. */
  function KeyEnd(q: string, i: nat): (e: nat)
    requires i <= |q|
    ensures i <= e <= |q|
    decreases |q| - i
  {
    if i < |q| && q[i] != '.' && q[i] != '[' then KeyEnd(q, i + 1) else i
  }

  /** The first ']' at or after `i`, or the end. */
  function Close(q: string, i: nat): (c: nat)
    requires i <= |q|
    ensures i <= c <= |q| && (c < |q| ==> q[c] == ']')
    decreases |q| - i
  {
    if i < |q| && q[i] != ']' then Close(q, i + 1) else i
  }

  /** The tokens read from `i` on. */
  function Tokens(q: string, i: nat): seq<Token>
    requires i <= |q|
    decreases |q| - i
  {
    if i == |q| then []
    else if q[i] == '.' then Tokens(q, i + 1)
    else if q[i] == '[' then
      var c := Close(q, i);
      if c == |q| then [Bare(q[i..])] else [Boxed(q[i + 1..c])] + Tokens(q, c + 1)
    else
      [Bare(q[i..KeyEnd(q, i)])] + Tokens(q, KeyEnd(q, i))
  }

  /** The text that a token was read from. */
  function Written(ts: seq<Token>): string {
    if ts == [] then ""
    else (match ts[0] case Bare(text) => text case Boxed(inner) => "[" + inner + "]") + Written(ts[1..])
  }

  /** The query from `i` on without the dots that are not between brackets. */
  function Undotted(q: string, i: nat): string
    requires i <= |q|
    decreases |q| - i
  {
    if i == |q| then ""
    else if q[i] == '.' then Undotted(q, i + 1)
    else if q[i] == '[' && Close(q, i) < |q| then q[i..Close(q, i) + 1] + Undotted(q, Close(q, i) + 1)
    else if q[i] == '[' then q[i..]
    else [q[i]] + Undotted(q, i + 1)
  }

  lemma SliceCons(q: string, i: nat, e: nat, rest: string)
    requires i < e <= |q|
    ensures [q[i]] + (q[i + 1..e] + rest) == q[i..e] + rest
  {
    assert q[i..e] == [q[i]] + q[i + 1..e];
  }

  lemma {:induction false} KeyUndotted(q: string, i: nat, e: nat)
    requires i <= |q| && e == KeyEnd(q, i)
    ensures Undotted(q, i) == q[i..e] + Undotted(q, e)
    decreases |q| - i
  {
    if i < e {
      assert KeyEnd(q, i) == KeyEnd(q, i + 1);
      KeyUndotted(q, i + 1, e);
      SliceCons(q, i, e, Undotted(q, e));
    } else {
      assert q[i..e] == [];
    }
  }

  lemma WrittenCons(t: Token, rest: seq<Token>)
    ensures Written([t] + rest) == Written([t]) + Written(rest)
    ensures Written([t]) == match t case Bare(text) => text case Boxed(inner) => "[" + inner + "]"
  {
    assert ([t] + rest)[1..] == rest;
    assert [t][1..] == [];
  }

  lemma BracketLosesNothing(q: string, i: nat)
    requires i < |q| && q[i] == '['
    ensures var c := Close(q, i);
            Written(Tokens(q, i)) == if c < |q| then q[i..c + 1] + Written(Tokens(q, c + 1)) else q[i..]
  {
    var c := Close(q, i);
    if c < |q| {
      var inner := q[i + 1..c];
      WrittenCons(Boxed(inner), Tokens(q, c + 1));
      assert q[i..c + 1] == "[" + inner + "]";
    } else {
      WrittenCons(Bare(q[i..]), []);
      assert [Bare(q[i..])] + [] == [Bare(q[i..])];
    }
  }

  /** The tokens from `i` on were read from all characters but the dots. */
  predicate LosesOnlyDots(q: string, i: nat)
    requires i <= |q|
  {
    Written(Tokens(q, i)) == Undotted(q, i)
  }

  lemma DotLoses(q: string, i: nat)
    requires i < |q| && q[i] == '.' && LosesOnlyDots(q, i + 1)
    ensures LosesOnlyDots(q, i)
  {
  }

  lemma BracketLoses(q: string, i: nat)
    requires i < |q| && q[i] == '[' && (Close(q, i) < |q| ==> LosesOnlyDots(q, Close(q, i) + 1))
    ensures LosesOnlyDots(q, i)
  {
    BracketLosesNothing(q, i);
  }

  lemma KeyLoses(q: string, i: nat, e: nat)
    requires i < |q| && q[i] != '.' && q[i] != '[' && e == KeyEnd(q, i) && LosesOnlyDots(q, e)
    ensures LosesOnlyDots(q, i)
  {
    WrittenCons(Bare(q[i..e]), Tokens(q, e));
    KeyUndotted(q, i, e);
  }

  /** Of a query nothing is lost but the dots between its tokens. */
  lemma {:induction false} TokensLoseOnlyDots(q: string, i: nat)
    requires i <= |q|
    ensures LosesOnlyDots(q, i)
    decreases |q| - i
  {
    if i < |q| {
      if q[i] == '.' {
        TokensLoseOnlyDots(q, i + 1);
        DotLoses(q, i);
      } else if q[i] == '[' {
        if Close(q, i) < |q| {
          TokensLoseOnlyDots(q, Close(q, i) + 1);
        }
        BracketLoses(q, i);
      } else {
        TokensLoseOnlyDots(q, KeyEnd(q, i));
        KeyLoses(q, i, KeyEnd(q, i));
      }
    }
  }

  function Parse(query: string): seq<Part> {
    Meanings(Tokens(Trim(query), 0))
  }

  method FindClose(q: string, i: nat) returns (end: nat)
    requires i <= |q|
    ensures end == Close(q, i)
  {
    end := i;
    while end < |q| && q[end] != ']'
      invariant i <= end <= |q| && Close(q, i) == Close(q, end)
    {
      end := end + 1;
    }
  }

  method FindKeyEnd(q: string, i: nat) returns (end: nat)
    requires i <= |q|
    ensures end == KeyEnd(q, i)
  {
    end := i;
    while end < |q| && q[end] != '.' && q[end] != '['
      invariant i <= end <= |q| && KeyEnd(q, i) == KeyEnd(q, end)
    {
      end := end + 1;
    }
  }

  /** A bracket at `i`: boxed up to its close, or a bare key to the end when it is never closed. */
  method ReadBox(q: string, i: nat) returns (t: Token, next: nat)
    requires i < |q| && q[i] == '['
    ensures i < next <= |q| && Tokens(q, i) == [t] + Tokens(q, next)
  {
    var end := FindClose(q, i);
    if end == |q| {
      assert Tokens(q, |q|) == [];
      return Bare(q[i..]), |q|;
    }
    return Boxed(q[i + 1..end]), end + 1;
  }

  /** The token at `i`, which is neither a dot nor the end, and where the next one starts. */
  method ReadToken(q: string, i: nat) returns (t: Token, next: nat)
    requires i < |q| && q[i] != '.'
    ensures i < next <= |q| && Tokens(q, i) == [t] + Tokens(q, next)
  {
    if q[i] == '[' {
      t, next := ReadBox(q, i);
    } else {
      next := FindKeyEnd(q, i);
      t := Bare(q[i..next]);
    }
  }

  lemma Moved(done: seq<Token>, t: Token, rest: seq<Token>)
    ensures (done + [t]) + rest == done + ([t] + rest)
    ensures Meanings(done + [t]) == Meanings(done) + [Meaning(t)]
  {
  }

  method ParsePath(query: string) returns (parts: seq<Part>)
    ensures parts == Parse(query)
  {
    var q := Trim(query);
    parts := [];
    ghost var done: seq<Token> := [];
    var i := 0;
    while i < |q|
      invariant 0 <= i <= |q| && done + Tokens(q, i) == Tokens(q, 0) && parts == Meanings(done)
    {
      if q[i] == '.' {
        i := i + 1;
        continue;
      }
      var t, next := ReadToken(q, i);
      Moved(done, t, Tokens(q, next));
      done := done + [t];
      parts := parts + [Meaning(t)];
      i := next;
    }
  }

  // ----- BuildRemainingPath -----

  function TokenOf(p: Part): Token {
    match p
    case Wildcard => Boxed("*")
    case Index(i) => Boxed(Format(i))
    case Key(name) => Bare(name)
  }

  function TokensOf(parts: seq<Part>): seq<Token> {
    seq(|parts|, k requires 0 <= k < |parts| => TokenOf(parts[k]))
  }

  /** The text a token adds: keys after the first token are preceded by a dot. */
  function Piece(t: Token, first: bool): string {
    match t
    case Bare(text) => if first then text else "." + text
    case Boxed(inner) => "[" + inner + "]"
  }

  /** `prefix` followed by the text of ts[j..]. */
  function PrintOnto(prefix: string, ts: seq<Token>, j: nat, first: bool): string
    requires j <= |ts|
    decreases |ts| - j
  {
    if j == |ts| then prefix else PrintOnto(prefix + Piece(ts[j], first), ts, j + 1, false)
  }

  function Remaining(parts: seq<Part>, wildcardIdx: nat): string
    requires wildcardIdx < |parts|
  {
    PrintOnto("", TokensOf(parts), wildcardIdx + 1, true)
  }

  lemma PrintStep(text: string, ts: seq<Token>, i: nat, first: bool, longer: string)
    requires i < |ts| && longer == text + Piece(ts[i], first)
    ensures PrintOnto(text, ts, i, first) == PrintOnto(longer, ts, i + 1, false)
  {
  }

  /** A key that is not first gets a dot; the rest gets brackets. */
  method AppendToken(text: string, t: Token, first: bool) returns (longer: string)
    ensures longer == text + Piece(t, first)
  {
    match t
    case Bare(name) => longer := if first then text + name else text + ("." + name);
    case Boxed(inner) => longer := text + ("[" + inner + "]");
  }

  method PrintTokens(ts: seq<Token>, j: nat) returns (text: string)
    requires j <= |ts|
    ensures text == PrintOnto("", ts, j, true)
  {
    text := "";
    var i, first := j, true;
    ghost var whole := PrintOnto("", ts, j, true);
    while i < |ts|
      invariant j <= i <= |ts| && PrintOnto(text, ts, i, first) == whole
    {
      var longer := AppendToken(text, ts[i], first);
      PrintStep(text, ts, i, first, longer);
      text, first := longer, false;
      i := i + 1;
    }
  }

  method BuildRemainingPath(parts: seq<Part>, wildcardIdx: nat) returns (text: string)
    requires wildcardIdx < |parts|
    ensures text == Remaining(parts, wildcardIdx)
  {
    text := PrintTokens(TokensOf(parts), wildcardIdx + 1);
  }

  // ----- parsing inverts printing -----

  /** A token that reads back as itself. */
  predicate Plain(t: Token) {
    match t
    case Bare(text) => text != [] && forall k :: 0 <= k < |text| ==> text[k] != '.' && text[k] != '['
    case Boxed(inner) => forall k :: 0 <= k < |inner| ==> inner[k] != ']'
  }

  lemma {:induction false} KeyEndIs(q: string, i: nat, e: nat)
    requires i <= e <= |q| && (forall k :: i <= k < e ==> q[k] != '.' && q[k] != '[')
    requires e < |q| ==> q[e] == '.' || q[e] == '['
    ensures KeyEnd(q, i) == e
    decreases e - i
  {
    if i < e {
      KeyEndIs(q, i + 1, e);
    }
  }

  lemma {:induction false} CloseIs(q: string, i: nat, c: nat)
    requires i <= c < |q| && q[c] == ']' && forall k :: i <= k < c ==> q[k] != ']'
    ensures Close(q, i) == c
    decreases c - i
  {
    if i < c {
      CloseIs(q, i + 1, c);
    }
  }

  /** The text `t` stands in `q` at `i`. */
  ghost predicate At(q: string, i: nat, t: string) {
    i + |t| <= |q| && forall k :: i <= k < i + |t| ==> q[k] == t[k - i]
  }

  lemma AtSlice(q: string, i: nat, t: string)
    requires At(q, i, t)
    ensures q[i..i + |t|] == t
  {
  }

  lemma ReadBare(q: string, i: nat, text: string)
    requires Plain(Bare(text)) && At(q, i, text)
    requires i + |text| < |q| ==> q[i + |text|] == '.' || q[i + |text|] == '['
    ensures Tokens(q, i) == [Bare(text)] + Tokens(q, i + |text|)
  {
    AtSlice(q, i, text);
    KeyEndIs(q, i, i + |text|);
    assert q[i] == text[0];
  }

  lemma ReadBoxed(q: string, i: nat, inner: string)
    requires Plain(Boxed(inner)) && At(q, i + 1, inner) && i + 1 + |inner| < |q| && q[i] == '['
    requires q[i + 1 + |inner|] == ']'
    ensures Tokens(q, i) == [Boxed(inner)] + Tokens(q, i + |inner| + 2)
  {
    AtSlice(q, i + 1, inner);
    CloseIs(q, i, i + 1 + |inner|);
  }

  lemma DottedAt(q: string, i: nat, text: string)
    requires At(q, i, "." + text)
    ensures i < |q| && q[i] == '.' && At(q, i + 1, text)
  {
    var t := "." + text;
    assert forall k :: 0 <= k < |text| ==> t[k + 1] == text[k];
    assert q[i] == t[0];
  }

  lemma EnclosedAt(q: string, i: nat, inner: string)
    requires At(q, i, "[" + inner + "]")
    ensures i + |inner| + 2 <= |q| && q[i] == '[' && At(q, i + 1, inner) && q[i + 1 + |inner|] == ']'
  {
    var t := "[" + inner + "]";
    assert forall k :: 0 <= k < |inner| ==> t[k + 1] == inner[k];
    assert q[i] == t[0] && q[i + 1 + |inner|] == t[|inner| + 1];
  }

  lemma ReadDotted(q: string, i: nat, text: string, piece: string)
    requires piece == "." + text && Plain(Bare(text)) && At(q, i, piece)
    requires i + |piece| < |q| ==> q[i + |piece|] == '.' || q[i + |piece|] == '['
    ensures Tokens(q, i) == [Bare(text)] + Tokens(q, i + |piece|)
  {
    DottedAt(q, i, text);
    assert i + |piece| == i + 1 + |text|;
    ReadBare(q, i + 1, text);
    assert Tokens(q, i) == Tokens(q, i + 1);
  }

  lemma ReadEnclosed(q: string, i: nat, inner: string, piece: string)
    requires piece == "[" + inner + "]" && Plain(Boxed(inner)) && At(q, i, piece)
    ensures Tokens(q, i) == [Boxed(inner)] + Tokens(q, i + |piece|)
  {
    EnclosedAt(q, i, inner);
    ReadBoxed(q, i, inner);
  }

  /** Reading one printed token, followed by nothing, a dot or a bracket. */
  lemma ReadPiece(q: string, i: nat, t: Token, first: bool, piece: string)
    requires piece == Piece(t, first) && Plain(t) && At(q, i, piece)
    requires i + |piece| < |q| ==> q[i + |piece|] == '.' || q[i + |piece|] == '['
    ensures Tokens(q, i) == [t] + Tokens(q, i + |piece|)
  {
    match t
    case Bare(text) =>
      if first {
        ReadBare(q, i, text);
      } else {
        ReadDotted(q, i, text, piece);
      }
    case Boxed(inner) => ReadEnclosed(q, i, inner, piece);
  }

  lemma PieceStands(prefix: string, piece: string, q: string)
    requires prefix + piece <= q
    ensures At(q, |prefix|, piece) && prefix <= q && (piece != [] ==> q[|prefix|] == piece[0])
  {
    var w := prefix + piece;
    assert forall k :: 0 <= k < |w| ==> q[k] == w[k];
  }

  /** Nothing, a dot or a bracket stands at `i`. */
  ghost predicate Ended(q: string, i: nat) {
    i < |q| ==> q[i] == '.' || q[i] == '['
  }

  /** In `q`, after `prefix`, exactly the tokens ts[j..] are read. */
  ghost predicate Reads(q: string, prefix: string, ts: seq<Token>, j: nat, first: bool) {
    && prefix <= q && j <= |ts| && Tokens(q, |prefix|) == ts[j..]
    && (!first ==> Ended(q, |prefix|))
  }

  lemma ReadsNothing(prefix: string, ts: seq<Token>, first: bool)
    ensures Reads(prefix, prefix, ts, |ts|, first)
  {
  }

  lemma ReadsMore(q: string, prefix: string, longer: string, ts: seq<Token>, j: nat, first: bool)
    requires j < |ts| && Plain(ts[j]) && longer == prefix + Piece(ts[j], first) && Reads(q, longer, ts, j + 1, false)
    ensures Reads(q, prefix, ts, j, first)
  {
    PieceStands(prefix, Piece(ts[j], first), q);
    ReadPiece(q, |prefix|, ts[j], first, Piece(ts[j], first));
    assert ts[j..] == [ts[j]] + ts[j + 1..];
  }

  ghost predicate AllPlain(ts: seq<Token>, j: nat) {
    forall k :: j <= k < |ts| ==> Plain(ts[k])
  }

  /** Tokens printed one after another are read back; what follows a token never extends it. */
  lemma {:induction false} PrintRead(prefix: string, ts: seq<Token>, j: nat, first: bool)
    requires j <= |ts| && AllPlain(ts, j)
    ensures Reads(PrintOnto(prefix, ts, j, first), prefix, ts, j, first)
    decreases |ts| - j
  {
    if j == |ts| {
      ReadsNothing(prefix, ts, first);
    } else {
      var longer := prefix + Piece(ts[j], first);
      PrintRead(longer, ts, j + 1, false);
      ReadsMore(PrintOnto(longer, ts, j + 1, false), prefix, longer, ts, j, first);
    }
  }

  /** Keys are nonempty, have no dot, opening bracket or surrounding white space; indices are machine integers. */
  predicate Clean(p: Part) {
    match p
    case Wildcard => true
    case Index(i) => MIN_INT <= i <= MAX_INT
    case Key(name) => name != [] && Trimmed(name) && '.' !in name && '[' !in name
  }

  /** The pieces of a token are nonempty and have no surrounding white space. */
  ghost predicate Tidy(t: Token) {
    && Piece(t, false) != [] && Trimmed(Piece(t, false))
    && Piece(t, true) != [] && Trimmed(Piece(t, true))
  }

  lemma BoxIsTidy(inner: string)
    ensures Tidy(Boxed(inner))
  {
    var piece := "[" + inner + "]";
    assert piece[0] == '[' && piece[|piece| - 1] == ']';
  }

  lemma KeyIsTidy(name: string)
    requires name != [] && Trimmed(name)
    ensures Tidy(Bare(name))
  {
    var piece := "." + name;
    assert piece[0] == '.' && piece[|piece| - 1] == name[|name| - 1];
  }

  lemma CleanIsPlain(p: Part)
    requires Clean(p)
    ensures Plain(TokenOf(p)) && Meaning(TokenOf(p)) == p && Tidy(TokenOf(p))
  {
    match p
    case Wildcard => BoxIsTidy("*");
    case Index(i) =>
      FormatRoundTrip(i);
      BoxIsTidy(Format(i));
    case Key(name) =>
      KeyIsTidy(name);
      assert forall k :: 0 <= k < |name| ==> name[k] in name;
  }

  ghost predicate AllTidy(ts: seq<Token>, j: nat) {
    forall k :: j <= k < |ts| ==> Tidy(ts[k])
  }

  ghost predicate EndsTidy(s: string) {
    s != [] && !IsSpace(s[|s| - 1])
  }

  lemma AppendTidy(prefix: string, t: Token, first: bool)
    requires Tidy(t)
    ensures EndsTidy(prefix + Piece(t, first))
  {
    var w, piece := prefix + Piece(t, first), Piece(t, first);
    assert piece != [] && w[|w| - 1] == piece[|piece| - 1];
  }

  /** The printed text ends with the last character of its last piece. */
  lemma {:induction false} PrintEnds(prefix: string, ts: seq<Token>, j: nat, first: bool)
    requires j <= |ts| && AllTidy(ts, j) && EndsTidy(prefix)
    ensures EndsTidy(PrintOnto(prefix, ts, j, first)) && PrintOnto(prefix, ts, j, first)[0] == prefix[0]
    decreases |ts| - j
  {
    if j < |ts| {
      AppendTidy(prefix, ts[j], first);
      PrintEnds(prefix + Piece(ts[j], first), ts, j + 1, false);
    }
  }

  lemma PrintFirst(ts: seq<Token>, j: nat)
    requires j < |ts|
    ensures PrintOnto("", ts, j, true) == PrintOnto(Piece(ts[j], true), ts, j + 1, false)
  {
    assert "" + Piece(ts[j], true) == Piece(ts[j], true);
  }

  lemma TidyEnds(t: Token)
    requires Tidy(t)
    ensures EndsTidy(Piece(t, true)) && !IsSpace(Piece(t, true)[0])
  {
  }

  lemma PrintTrimmed(ts: seq<Token>, j: nat)
    requires j <= |ts| && AllTidy(ts, j)
    ensures Trimmed(PrintOnto("", ts, j, true)) && (PrintOnto("", ts, j, true) == "" <==> j == |ts|)
  {
    if j < |ts| {
      PrintFirst(ts, j);
      TidyEnds(ts[j]);
      PrintEnds(Piece(ts[j], true), ts, j + 1, false);
    }
  }

  /** The parts after index w are clean. */
  predicate CleanAfter(parts: seq<Part>, w: int) {
    forall k :: 0 <= k < |parts| && w < k ==> Clean(parts[k])
  }

  lemma CleanTokens(parts: seq<Part>, w: nat)
    requires w < |parts| && CleanAfter(parts, w)
    ensures AllPlain(TokensOf(parts), w + 1) && AllTidy(TokensOf(parts), w + 1)
    ensures Meanings(TokensOf(parts)[w + 1..]) == parts[w + 1..]
  {
    var ts := TokensOf(parts);
    forall k | w + 1 <= k < |ts| ensures Plain(ts[k]) && Tidy(ts[k]) && Meaning(ts[k]) == parts[k] {
      CleanIsPlain(parts[k]);
    }
  }

  /** Reading the rebuilt text gives back exactly the parts it was built from. */
  lemma ParseInvertsPrint(parts: seq<Part>, w: nat)
    requires w < |parts| && CleanAfter(parts, w)
    ensures Parse(Remaining(parts, w)) == parts[w + 1..]
    ensures Remaining(parts, w) == "" <==> w + 1 == |parts|
  {
    CleanTokens(parts, w);
    PrintTrimmed(TokensOf(parts), w + 1);
    PrintRead("", TokensOf(parts), w + 1, true);
    TrimSelf(Remaining(parts, w));
  }

  lemma TrimSelf(q: string)
    requires Trimmed(q)
    ensures Trim(q) == q
  {
    TrimPadded([], q, []);
    assert [] + q + [] == q;
  }

  // ----- Navigate -----

  datatype Value = Scalar(text: string) | Arr(items: seq<Value>) | Obj(fields: map<string, Value>)

  /** The element an index names, counted from the end when negative. */
  function ItemAt(v: Value, i: int): (r: Option<Value>)
    ensures r.Some? ==> r.value < v
  {
    if !v.Arr? then None
    else
      var k := if i < 0 then |v.items| + i else i;
      if 0 <= k < |v.items| then Some(v.items[k]) else None
  }

  /** The k-th element from the front has index k and the k-th from the back index -1 - k, and there are no others. */
  lemma ItemAtCounts(v: Value, k: nat)
    requires v.Arr?
    ensures var n := |v.items|;
            && ItemAt(v, k) == (if k < n then Some(v.items[k]) else None)
            && ItemAt(v, -1 - k) == if k < n then Some(v.items[n - 1 - k]) else None
  {
  }

  function Field(v: Value, name: string): (r: Option<Value>)
    ensures r.Some? ==> r.value < v
  {
    if v.Obj? && name in v.fields then Some(v.fields[name]) else None
  }

  function Prepend(rs: seq<Value>, more: Option<seq<Value>>): Option<seq<Value>> {
    if more.None? then None else Some(rs + more.value)
  }

  /** Direct evaluation of parts[k..]. */
  function Eval(v: Value, parts: seq<Part>, k: nat): Option<Value>
    requires k <= |parts|
    decreases |parts| - k, 0
  {
    if k == |parts| then Some(v)
    else
      match parts[k]
      case Key(name) => if Field(v, name).None? then None else Eval(Field(v, name).value, parts, k + 1)
      case Index(i) => if ItemAt(v, i).None? then None else Eval(ItemAt(v, i).value, parts, k + 1)
      case Wildcard =>
        if !v.Arr? then None
        else
          var all := EvalItems(v.items, 0, parts, k + 1);
          if all.None? then None else Some(Arr(all.value))
  }

  /** The same for each of items[n..]. */
  function EvalItems(items: seq<Value>, n: nat, parts: seq<Part>, k: nat): Option<seq<Value>>
    requires k <= |parts| && n <= |items|
    decreases |parts| - k, |items| - n + 1
  {
    if n == |items| then Some([])
    else
      var head := Eval(items[n], parts, k);
      if head.None? then None else Prepend([head.value], EvalItems(items, n + 1, parts, k))
  }

  lemma {:induction false} EvalItemsGive(items: seq<Value>, n: nat, parts: seq<Part>, k: nat, i: nat)
    requires k <= |parts| && n <= |items| && i < |items| - n && EvalItems(items, n, parts, k).Some?
    ensures var rs := EvalItems(items, n, parts, k).value;
            |rs| == |items| - n && Eval(items[n + i], parts, k) == Some(rs[i])
    decreases |items| - n
  {
    var head, more := Eval(items[n], parts, k).value, EvalItems(items, n + 1, parts, k);
    assert EvalItems(items, n, parts, k) == Some([head] + more.value);
    if n + 1 < |items| {
      EvalItemsGive(items, n + 1, parts, k, if i == 0 then 0 else i - 1);
    }
  }

  lemma {:induction false} EvalItemsFind(items: seq<Value>, n: nat, parts: seq<Part>, k: nat, rs: seq<Value>)
    requires k <= |parts| && n <= |items| && |rs| == |items| - n
    requires forall i :: n <= i < |items| ==> Eval(items[i], parts, k) == Some(rs[i - n])
    ensures EvalItems(items, n, parts, k) == Some(rs)
    decreases |items| - n
  {
    if n < |items| {
      EvalItemsFind(items, n + 1, parts, k, rs[1..]);
      assert rs == [rs[0]] + rs[1..];
      assert Eval(items[n], parts, k) == Some(rs[n - n]);
    }
  }

  /** A wildcard gives an array as long as the one it is applied to. */
  lemma WildcardMaps(v: Value, parts: seq<Part>, k: nat, r: Value)
    requires k < |parts| && parts[k].Wildcard?
    ensures Eval(v, parts, k) == Some(r) <==>
            && v.Arr? && r.Arr? && |r.items| == |v.items|
            && forall i :: 0 <= i < |r.items| ==> Eval(v.items[i], parts, k + 1) == Some(r.items[i])
  {
    if v.Arr? && EvalItems(v.items, 0, parts, k + 1).Some? {
      var rs := EvalItems(v.items, 0, parts, k + 1).value;
      assert v.items == [] ==> rs == [];
      forall i | 0 <= i < |v.items| ensures |rs| == |v.items| && Eval(v.items[i], parts, k + 1) == Some(rs[i]) {
        EvalItemsGive(v.items, 0, parts, k + 1, i);
      }
    }
    if v.Arr? && r.Arr? && |r.items| == |v.items|
       && forall i :: 0 <= i < |r.items| ==> Eval(v.items[i], parts, k + 1) == Some(r.items[i]) {
      EvalItemsFind(v.items, 0, parts, k + 1, r.items);
    }
  }

  lemma {:induction false} EvalShift(v: Value, parts: seq<Part>, w: nat, k: nat)
    requires w + k <= |parts|
    ensures Eval(v, parts[w..], k) == Eval(v, parts, w + k)
    decreases |parts| - k, 0
  {
    if w + k < |parts| {
      match parts[w + k]
      case Key(name) => if Field(v, name).Some? { EvalShift(Field(v, name).value, parts, w, k + 1); }
      case Index(i) => if ItemAt(v, i).Some? { EvalShift(ItemAt(v, i).value, parts, w, k + 1); }
      case Wildcard => if v.Arr? { EvalItemsShift(v.items, 0, parts, w, k + 1); }
    }
  }

  lemma {:induction false} EvalItemsShift(items: seq<Value>, n: nat, parts: seq<Part>, w: nat, k: nat)
    requires w + k <= |parts| && n <= |items|
    ensures EvalItems(items, n, parts[w..], k) == EvalItems(items, n, parts, w + k)
    decreases |parts| - k, |items| - n + 1
  {
    if n < |items| {
      EvalShift(items[n], parts, w, k);
      EvalItemsShift(items, n + 1, parts, w, k);
    }
  }

  /** Every part after the first wildcard is clean, so the rebuilt paths can be read back. */
  predicate Rebuildable(parts: seq<Part>) {
    forall w :: 0 <= w < |parts| && parts[w].Wildcard? ==> CleanAfter(parts, w)
  }

  lemma RebuildableRest(parts: seq<Part>, w: nat)
    requires w < |parts| && parts[w].Wildcard? && Rebuildable(parts)
    ensures Rebuildable(parts[w + 1..])
  {
    var rest := parts[w + 1..];
    forall u, k | 0 <= u < |rest| && rest[u].Wildcard? && 0 <= k < |rest| && u < k ensures Clean(rest[k]) {
      assert rest[k] == parts[w + 1 + k];
    }
  }

  lemma Untouched(rs: seq<Value>, more: Option<seq<Value>>)
    ensures Prepend([], more) == more && Prepend(rs, Some([])) == Some(rs)
  {
    assert rs + [] == rs;
    if more.Some? {
      assert [] + more.value == more.value;
    }
  }

  lemma Collected(rs: seq<Value>, v: Value, more: Option<seq<Value>>)
    ensures Prepend(rs, Prepend([v], more)) == Prepend(rs + [v], more)
  {
    if more.Some? {
      assert rs + ([v] + more.value) == (rs + [v]) + more.value;
    }
  }

  /** Rebuilding the path as text for each element of an array, to any nesting of wildcards, finds and fails exactly as
      direct evaluation of the parsed parts does. */
  method Navigate(data: Value, query: string) returns (r: Option<Value>)
    ensures Rebuildable(Parse(query)) ==> r == Eval(data, Parse(query), 0)
    decreases data, 2
  {
    var parts := ParsePath(query);
    var current := data;
    for pi := 0 to |parts|
      invariant current == data || current < data
      invariant Eval(data, parts, 0) == Eval(current, parts, pi)
    {
      match parts[pi]
      case Wildcard =>
        if !current.Arr? {
          return None;
        }
        var results := NavigateItems(data, current, parts, pi);
        return if results.None? then None else Some(Arr(results.value));
      case Index(i) =>
        var item := ItemAt(current, i);
        if item.None? {
          return None;
        }
        current := item.value;
      case Key(name) =>
        var field := Field(current, name);
        if field.None? {
          return None;
        }
        current := field.value;
    }
    r := Some(current);
  }

  /** One element of the array: itself when no path remains, else what the rebuilt path finds in it. */
  method NavigateItem(item: Value, ghost data: Value, parts: seq<Part>, pi: nat, remaining: string)
    returns (val: Option<Value>)
    requires pi < |parts| && parts[pi].Wildcard? && remaining == Remaining(parts, pi) && item < data
    ensures Rebuildable(parts) ==> val == Eval(item, parts, pi + 1)
    decreases data, 0
  {
    if Rebuildable(parts) {
      ParseInvertsPrint(parts, pi);
      RebuildableRest(parts, pi);
      EvalShift(item, parts, pi + 1, 0);
    }
    val := Some(item);
    if remaining != "" {
      val := Navigate(item, remaining);
    }
  }

  /** The wildcard loop. */
  method NavigateItems(ghost data: Value, arr: Value, parts: seq<Part>, pi: nat) returns (results: Option<seq<Value>>)
    requires pi < |parts| && parts[pi].Wildcard? && arr.Arr? && (arr == data || arr < data)
    ensures Rebuildable(parts) ==> results == EvalItems(arr.items, 0, parts, pi + 1)
    decreases data, 1
  {
    var remaining := BuildRemainingPath(parts, pi);
    var found: seq<Value> := [];
    Untouched([], EvalItems(arr.items, 0, parts, pi + 1));
    for i := 0 to |arr.items|
      invariant Rebuildable(parts) ==>
                Prepend(found, EvalItems(arr.items, i, parts, pi + 1)) == EvalItems(arr.items, 0, parts, pi + 1)
    {
      var val := NavigateItem(arr.items[i], data, parts, pi, remaining);
      if val.None? {
        return None;
      }
      Collected(found, val.value, EvalItems(arr.items, i + 1, parts, pi + 1));
      found := found + [val.value];
    }
    Untouched(found, None);
    results := Some(found);
  }
}
