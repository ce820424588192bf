/** The streaming JSON decoder that the snapshot producer drives, from lexemes up: the token
    states that enforce nesting and separators, whole-value reads, and the end of the input. */
module JsonStream {
  import opened Wrappers
  import opened Deals

  datatype Lexeme = LBrace | RBrace | LBrack | RBrack | Colon | Comma | Str(text: string) | Scalar(literal: string) | Junk

  /** What the reader holds. After the last lexeme it ends, or breaks when faulty. Unmarshalling a
      complete value into a deal is the library's business: any partial function. */
  datatype Input = Input(lexemes: seq<Lexeme>, faulty: bool, unmarshal: seq<Lexeme> -> Option<Deal>)

  datatype TokenState =
    | TopValue
    | ArrayStart | ArrayValue | ArrayComma
    | ObjectStart | ObjectKey | ObjectColon | ObjectValue | ObjectComma

  datatype Decoder = Decoder(pos: nat, state: TokenState, stack: seq<TokenState>) {
    predicate Valid(input: Input) {
      && pos <= |input.lexemes|
      && (state == TopValue <==> stack == [])
      && (forall i :: 0 <= i < |stack| ==> (stack[i] == TopValue <==> i == 0))
    }

    function Push(inner: TokenState): Decoder {
      Decoder(pos + 1, inner, stack + [state])
    }

    function Pop(): Decoder
      requires stack != []
    {
      Decoder(pos + 1, ValueEnd(stack[|stack| - 1]), stack[..|stack| - 1])
    }

    function Skip(next: TokenState): Decoder {
      Decoder(pos + 1, next, stack)
    }
  }

  const FRESH: Decoder := Decoder(0, TopValue, [])

  datatype Token = Open(bracket: Lexeme) | Close(bracket: Lexeme) | Text(text: string) | Other

  datatype TokenResult = Tok(token: Token) | Eof | Broken

  predicate ValueAllowed(s: TokenState) {
    s == TopValue || s == ArrayStart || s == ArrayValue || s == ObjectValue
  }

  function ValueEnd(s: TokenState): TokenState {
    match s
    case ArrayStart => ArrayComma
    case ArrayValue => ArrayComma
    case ObjectValue => ObjectComma
    case _ => s
  }

  /** Decoder.Token: the next token with the separators before it checked and swallowed. */
  function NextToken(input: Input, d: Decoder): (r: (TokenResult, Decoder))
    requires d.Valid(input)
    ensures r.1.Valid(input)
    ensures r.0.Tok? ==> r.1.pos > d.pos
    decreases |input.lexemes| - d.pos
  {
    if d.pos == |input.lexemes| then
      (if input.faulty then Broken else Eof, d)
    else
      var l := input.lexemes[d.pos];
      match l
      case LBrack =>
        if ValueAllowed(d.state) then (Tok(Open(l)), d.Push(ArrayStart)) else (Broken, d)
      case RBrack =>
        if d.state == ArrayStart || d.state == ArrayComma then (Tok(Close(l)), d.Pop()) else (Broken, d)
      case LBrace =>
        if ValueAllowed(d.state) then (Tok(Open(l)), d.Push(ObjectStart)) else (Broken, d)
      case RBrace =>
        if d.state == ObjectStart || d.state == ObjectComma then (Tok(Close(l)), d.Pop()) else (Broken, d)
      case Colon =>
        if d.state == ObjectColon then NextToken(input, d.Skip(ObjectValue)) else (Broken, d)
      case Comma =>
        if d.state == ArrayComma then NextToken(input, d.Skip(ArrayValue))
        else if d.state == ObjectComma then NextToken(input, d.Skip(ObjectKey))
        else (Broken, d)
      case Str(text) =>
        if d.state == ObjectStart || d.state == ObjectKey then (Tok(Text(text)), d.Skip(ObjectColon))
        else if ValueAllowed(d.state) then (Tok(Text(text)), d.Skip(ValueEnd(d.state)))
        else (Broken, d)
      case Scalar(_) =>
        if ValueAllowed(d.state) then (Tok(Other), d.Skip(ValueEnd(d.state))) else (Broken, d)
      case Junk =>
        (Broken, d)
  }

  /* ----- Whole values ----- */

  /** The length of the JSON value at the front of s, if a complete one is there. */
  function ReadValue(s: seq<Lexeme>): (r: Option<nat>)
    ensures r.Some? ==> 0 < r.value <= |s|
    decreases |s|, 0
  {
    if s == [] then None
    else
      match s[0]
      case Str(_) => Some(1)
      case Scalar(_) => Some(1)
      case LBrack => if |s| > 1 && s[1] == RBrack then Some(2) else Longer(1, ReadElements(s[1..]))
      case LBrace => if |s| > 1 && s[1] == RBrace then Some(2) else Longer(1, ReadMembers(s[1..]))
      case _ => None
  }

  function Longer(k: nat, r: Option<nat>): Option<nat> {
    match r
    case None => None
    case Some(n) => Some(k + n)
  }

  function ReadElements(s: seq<Lexeme>): (r: Option<nat>)
    ensures r.Some? ==> 0 < r.value <= |s|
    decreases |s|, 1
  {
    match ReadValue(s)
    case None => None
    case Some(n) =>
      if n == |s| then None
      else if s[n] == RBrack then Some(n + 1)
      else if s[n] == Comma then Longer(n + 1, ReadElements(s[n + 1..]))
      else None
  }

  function ReadMembers(s: seq<Lexeme>): (r: Option<nat>)
    ensures r.Some? ==> 0 < r.value <= |s|
    decreases |s|, 1
  {
    if |s| < 2 || !s[0].Str? || s[1] != Colon then None
    else
      match ReadValue(s[2..])
      case None => None
      case Some(n) =>
        if n + 2 == |s| then None
        else if s[n + 2] == RBrace then Some(n + 3)
        else if s[n + 2] == Comma then Longer(n + 3, ReadMembers(s[n + 3..]))
        else None
  }

  /** v is one complete value, with nothing after it. */
  predicate IsValue(v: seq<Lexeme>) {
    ReadValue(v) == Some(|v|)
  }

  /** Decoder.Decode into a deal: the separator that is due, then a whole value, unmarshalled. */
  function DecodeDeal(input: Input, d: Decoder): (r: (Option<Deal>, Decoder))
    requires d.Valid(input)
    ensures r.0.Some? ==> r.1.Valid(input) && r.1.pos > d.pos
  {
    var due := if d.state == ArrayComma then Some((Comma, ArrayValue))
               else if d.state == ObjectColon then Some((Colon, ObjectValue))
               else None;
    if due.Some? && !(d.pos < |input.lexemes| && input.lexemes[d.pos] == due.value.0) then (None, d)
    else
      var d1 := if due.Some? then d.Skip(due.value.1) else d;
      if !ValueAllowed(d1.state) then (None, d1)
      else
        var rest := input.lexemes[d1.pos..];
        match ReadValue(rest)
        case None => (None, d1)
        case Some(n) => (input.unmarshal(rest[..n]), Decoder(d1.pos + n, ValueEnd(d1.state), d1.stack))
  }

  lemma SamePrefix(s: seq<Lexeme>, t: seq<Lexeme>, n: nat)
    requires n <= |s| && n <= |t| && s[..n] == t[..n]
    ensures forall i :: 0 <= i < n ==> s[i] == t[i]
  {
    assert forall i :: 0 <= i < n ==> s[i] == s[..n][i];
  }

  lemma SameSlice(s: seq<Lexeme>, t: seq<Lexeme>, n: nat, from: nat, k: nat)
    requires n <= |s| && n <= |t| && s[..n] == t[..n] && from + k <= n
    ensures s[from..][..k] == t[from..][..k]
  {
    assert s[from..][..k] == s[..n][from..][..k];
    assert t[from..][..k] == t[..n][from..][..k];
  }

  /** A read looks at nothing beyond the value that it reads. */
  lemma {:induction false} ReadValueLocal(s: seq<Lexeme>, t: seq<Lexeme>, n: nat)
    requires ReadValue(s) == Some(n) && n <= |t| && s[..n] == t[..n]
    ensures ReadValue(t) == Some(n)
    decreases |s|, 0
  {
    SamePrefix(s, t, n);
    if n > 2 || (n == 2 && s[1] != RBrack && s[1] != RBrace) {
      SameSlice(s, t, n, 1, n - 1);
      if s[0] == LBrack {
        ReadElementsLocal(s[1..], t[1..], n - 1);
      } else {
        ReadMembersLocal(s[1..], t[1..], n - 1);
      }
    }
  }

  lemma {:induction false} ReadElementsLocal(s: seq<Lexeme>, t: seq<Lexeme>, n: nat)
    requires ReadElements(s) == Some(n) && n <= |t| && s[..n] == t[..n]
    ensures ReadElements(t) == Some(n)
    decreases |s|, 1
  {
    hide ReadValue, ReadMembers;
    SamePrefix(s, t, n);
    var k := ReadValue(s).value;
    SameSlice(s, t, n, 0, k);
    ReadValueLocal(s, t, k);
    if s[k] == Comma {
      SameSlice(s, t, n, k + 1, n - k - 1);
      ReadElementsLocal(s[k + 1..], t[k + 1..], n - k - 1);
    }
  }

  lemma {:induction false} ReadMembersLocal(s: seq<Lexeme>, t: seq<Lexeme>, n: nat)
    requires ReadMembers(s) == Some(n) && n <= |t| && s[..n] == t[..n]
    ensures ReadMembers(t) == Some(n)
    decreases |s|, 1
  {
    hide ReadValue, ReadElements, ReadMembers;
    var k := MembersUnfold(s, n);
    SamePrefix(s, t, n);
    SameSlice(s, t, n, 2, k);
    ReadValueLocal(s[2..], t[2..], k);
    if s[k + 2] == Comma {
      SameSlice(s, t, n, k + 3, n - k - 3);
      ReadMembersLocal(s[k + 3..], t[k + 3..], n - k - 3);
    }
    MembersFold(t, k, n);
  }

  /** How a list of members goes on behind its first. */
  lemma MembersUnfold(s: seq<Lexeme>, n: nat) returns (m: nat)
    requires ReadMembers(s) == Some(n)
    ensures |s| >= 2 && s[0].Str? && s[1] == Colon && ReadValue(s[2..]) == Some(m) && m + 2 < n <= |s|
    ensures (s[m + 2] == RBrace && n == m + 3) || (s[m + 2] == Comma && ReadMembers(s[m + 3..]) == Some(n - m - 3) && n > m + 3)
  {
    hide ReadValue, ReadElements;
    m := ReadValue(s[2..]).value;
  }

  lemma MembersFold(s: seq<Lexeme>, m: nat, n: nat)
    requires |s| >= 2 && s[0].Str? && s[1] == Colon && ReadValue(s[2..]) == Some(m) && m + 2 < n <= |s|
    requires (s[m + 2] == RBrace && n == m + 3) || (s[m + 2] == Comma && ReadMembers(s[m + 3..]) == Some(n - m - 3) && n > m + 3)
    ensures ReadMembers(s) == Some(n)
  {
    hide ReadValue, ReadElements;
  }

  /* ----- Token by token and whole ----- */

  /** The decoder after k more tokens, if there are as many. */
  function AfterTokens(input: Input, d: Decoder, k: nat): (r: Option<Decoder>)
    requires d.Valid(input)
    ensures r.Some? ==> r.value.Valid(input)
    decreases k
  {
    if k == 0 then Some(d)
    else
      var (token, d1) := NextToken(input, d);
      if token.Tok? then AfterTokens(input, d1, k - 1) else None
  }

  lemma {:induction false} TokensBehind(input: Input, d: Decoder, j: nat, k: nat)
    requires d.Valid(input) && AfterTokens(input, d, j).Some?
    ensures AfterTokens(input, d, j + k) == AfterTokens(input, AfterTokens(input, d, j).value, k)
    decreases j
  {
    hide NextToken;
    if j > 0 {
      TokensBehind(input, NextToken(input, d).1, j - 1, k);
    }
  }

  /** First so many tokens, then so many more. */
  lemma TokensJoin(input: Input, d: Decoder, j: nat, mid: Decoder, k: nat, end: Decoder)
    requires d.Valid(input) && mid.Valid(input)
    requires AfterTokens(input, d, j) == Some(mid) && AfterTokens(input, mid, k) == Some(end)
    ensures AfterTokens(input, d, j + k) == Some(end)
  {
    TokensBehind(input, d, j, k);
  }

  lemma OneToken(input: Input, d: Decoder)
    requires d.Valid(input) && NextToken(input, d).0.Tok?
    ensures AfterTokens(input, d, 1) == Some(NextToken(input, d).1)
  {
    assert AfterTokens(input, NextToken(input, d).1, 0) == Some(NextToken(input, d).1);
  }

  /** A due separator makes no difference to the tokens that follow. */
  lemma SeparatorSwallowed(input: Input, d: Decoder, next: TokenState, k: nat)
    requires d.Valid(input) && d.pos < |input.lexemes| && k >= 1
    requires
      || (input.lexemes[d.pos] == Comma && d.state == ArrayComma && next == ArrayValue)
      || (input.lexemes[d.pos] == Comma && d.state == ObjectComma && next == ObjectKey)
      || (input.lexemes[d.pos] == Colon && d.state == ObjectColon && next == ObjectValue)
    ensures d.Skip(next).Valid(input) && AfterTokens(input, d, k) == AfterTokens(input, d.Skip(next), k)
  {
    assert NextToken(input, d) == NextToken(input, d.Skip(next));
    hide NextToken;
  }

  /** The decoder behind a value of n lexemes, inside the same container. */
  function Behind(d: Decoder, n: nat): Decoder {
    Decoder(d.pos + n, ValueEnd(d.state), d.stack)
  }

  /** The decoder behind the container that it is in, n lexemes on. */
  function Outside(d: Decoder, n: nat): Decoder
    requires d.stack != []
  {
    Decoder(d.pos + n, ValueEnd(d.stack[|d.stack| - 1]), d.stack[..|d.stack| - 1])
  }

  /** A token that closes its container. */
  lemma Closes(input: Input, d: Decoder)
    requires d.Valid(input) && d.pos < |input.lexemes|
    requires
      || (input.lexemes[d.pos] == RBrack && (d.state == ArrayStart || d.state == ArrayComma))
      || (input.lexemes[d.pos] == RBrace && (d.state == ObjectStart || d.state == ObjectComma))
    ensures d.stack != [] && Outside(d, 1).Valid(input) && AfterTokens(input, d, 1) == Some(Outside(d, 1))
  {
    OneToken(input, d);
    hide AfterTokens;
  }

  /** A token that is a whole value. */
  lemma PlainToken(input: Input, d: Decoder)
    requires d.Valid(input) && ValueAllowed(d.state) && d.pos < |input.lexemes|
    requires input.lexemes[d.pos].Str? || input.lexemes[d.pos].Scalar?
    ensures AfterTokens(input, d, 1) == Some(Behind(d, 1))
  {
    OneToken(input, d);
    hide AfterTokens;
  }

  /** A token that opens a container. */
  lemma Opens(input: Input, d: Decoder) returns (inner: Decoder)
    requires d.Valid(input) && ValueAllowed(d.state) && d.pos < |input.lexemes|
    requires input.lexemes[d.pos] == LBrack || input.lexemes[d.pos] == LBrace
    ensures inner == d.Push(if input.lexemes[d.pos] == LBrack then ArrayStart else ObjectStart)
    ensures inner.Valid(input) && AfterTokens(input, d, 1) == Some(inner)
    ensures inner.stack != [] && forall n: nat :: n >= 1 ==> Outside(inner, n - 1) == Behind(d, n)
  {
    OneToken(input, d);
    inner := d.Push(if input.lexemes[d.pos] == LBrack then ArrayStart else ObjectStart);
    hide AfterTokens;
  }

  /** What is left to read behind a position. */
  lemma Slices(s: seq<Lexeme>, i: nat, k: nat)
    requires i + k <= |s|
    ensures s[i..][k..] == s[i + k..] && (i + k < |s| ==> s[i..][k] == s[i + k])
  {
  }

  /** Wherever a value may stand, reading it token by token takes the same lexemes as reading it whole,
      and leaves the decoder in the same state. */
  lemma {:induction false} ValueTokens(input: Input, d: Decoder, n: nat) returns (k: nat)
    requires d.Valid(input) && ValueAllowed(d.state) && ReadValue(input.lexemes[d.pos..]) == Some(n)
    ensures k >= 1 && AfterTokens(input, d, k) == Some(Behind(d, n))
    decreases n, 2
  {
    hide NextToken, AfterTokens, ReadValue, ReadElements, ReadMembers;
    var s := input.lexemes[d.pos..];
    ValueUnfold(s, n);
    Slices(input.lexemes, d.pos, 0);
    if s[0].Str? || s[0].Scalar? {
      PlainToken(input, d);
      k := 1;
    } else {
      Slices(input.lexemes, d.pos, 1);
      var inner := Opens(input, d);
      var j := InnerTokens(input, inner, s[0], n);
      assert Outside(inner, n - 1) == Behind(d, n);
      hide *;
      TokensJoin(input, d, 1, inner, j, Behind(d, n));
      k := 1 + j;
    }
  }

  /** The tokens of a container behind its opening bracket. */
  lemma {:induction false} InnerTokens(input: Input, d: Decoder, bracket: Lexeme, n: nat) returns (j: nat)
    requires d.Valid(input) && d.stack != [] && (bracket == LBrack || bracket == LBrace)
    requires d.state == if bracket == LBrack then ArrayStart else ObjectStart
    requires Contents(bracket, input.lexemes[d.pos..], n)
    ensures j >= 1 && n >= 1 && AfterTokens(input, d, j) == Some(Outside(d, n - 1))
    decreases n, 1
  {
    hide NextToken, AfterTokens, ReadValue, ReadElements, ReadMembers;
    Slices(input.lexemes, d.pos, 0);
    if n == 2 && input.lexemes[d.pos..] != [] && input.lexemes[d.pos] == Closing(bracket) {
      Closes(input, d);
      j := 1;
    } else if bracket == LBrack {
      j := ElementTokens(input, d, n - 1);
    } else {
      j := MemberTokens(input, d, n - 1);
    }
  }

  function Closing(bracket: Lexeme): Lexeme {
    if bracket == LBrack then RBrack else RBrace
  }

  /** What stands behind the opening bracket of a container of n lexemes. */
  predicate Contents(bracket: Lexeme, s: seq<Lexeme>, n: nat) {
    || (n == 2 && s != [] && s[0] == Closing(bracket))
    || (n > 2 && (if bracket == LBrack then ReadElements(s) else ReadMembers(s)) == Some(n - 1))
  }

  lemma ValueUnfold(s: seq<Lexeme>, n: nat)
    requires ReadValue(s) == Some(n)
    ensures s != [] && (s[0].Str? || s[0].Scalar? || s[0] == LBrack || s[0] == LBrace)
    ensures s[0].Str? || s[0].Scalar? ==> n == 1
    ensures s[0] == LBrack || s[0] == LBrace ==> Contents(s[0], s[1..], n)
  {
    if |s| > 1 {
      assert s[1..][0] == s[1];
      ShortestInside(s[1..]);
    }
    hide ReadElements, ReadMembers;
  }

  lemma ShortestInside(s: seq<Lexeme>)
    ensures ReadElements(s).Some? ==> ReadElements(s).value >= 2
    ensures ReadMembers(s).Some? ==> ReadMembers(s).value >= 2
  {
    hide ReadValue;
  }

  /** How a list of elements goes on behind its first. */
  lemma ElementsUnfold(s: seq<Lexeme>, n: nat) returns (m: nat)
    requires ReadElements(s) == Some(n)
    ensures ReadValue(s) == Some(m) && m < n <= |s|
    ensures (s[m] == RBrack && n == m + 1) || (s[m] == Comma && ReadElements(s[m + 1..]) == Some(n - m - 1) && n > m + 1)
  {
    hide ReadValue, ReadMembers;
    m := ReadValue(s).value;
  }

  lemma {:induction false} ElementTokens(input: Input, d: Decoder, n: nat) returns (k: nat)
    requires d.Valid(input) && (d.state == ArrayStart || d.state == ArrayValue) && d.stack != []
    requires ReadElements(input.lexemes[d.pos..]) == Some(n)
    ensures k >= 1 && AfterTokens(input, d, k) == Some(Outside(d, n))
    decreases n, 1
  {
    hide NextToken, AfterTokens, ReadValue, ReadElements, ReadMembers;
    var m := ElementsUnfold(input.lexemes[d.pos..], n);
    var j := ValueTokens(input, d, m);
    var behind, more := Behind(d, m), 1;
    Slices(input.lexemes, d.pos, m);
    Slices(input.lexemes, d.pos, m + 1);
    assert behind.Valid(input);
    if input.lexemes[behind.pos] == RBrack {
      Closes(input, behind);
    } else {
      more := ElementTokens(input, behind.Skip(ArrayValue), n - m - 1);
      SeparatorSwallowed(input, behind, ArrayValue, more);
    }
    assert AfterTokens(input, behind, more) == Some(Outside(d, n));
    hide *;
    TokensJoin(input, d, j, behind, more, Outside(d, n));
    k := j + more;
  }

  lemma {:induction false} MemberTokens(input: Input, d: Decoder, n: nat) returns (k: nat)
    requires d.Valid(input) && (d.state == ObjectStart || d.state == ObjectKey) && d.stack != []
    requires ReadMembers(input.lexemes[d.pos..]) == Some(n)
    ensures k >= 1 && AfterTokens(input, d, k) == Some(Outside(d, n))
    decreases n, 1
  {
    hide NextToken, AfterTokens, ReadValue, ReadElements, ReadMembers;
    var m := MembersUnfold(input.lexemes[d.pos..], n);
    var j := KeyedValueTokens(input, d, m, n);
    var behind, more := Decoder(d.pos + m + 2, ObjectComma, d.stack), 1;
    Slices(input.lexemes, d.pos, m + 2);
    Slices(input.lexemes, d.pos, m + 3);
    assert behind.Valid(input);
    if input.lexemes[behind.pos] == RBrace {
      Closes(input, behind);
    } else {
      more := MemberTokens(input, behind.Skip(ObjectKey), n - m - 3);
      SeparatorSwallowed(input, behind, ObjectKey, more);
    }
    assert AfterTokens(input, behind, more) == Some(Outside(d, n));
    hide *;
    TokensJoin(input, d, j, behind, more, Outside(d, n));
    k := j + more;
  }

  lemma {:induction false} KeyedValueTokens(input: Input, d: Decoder, m: nat, n: nat) returns (k: nat)
    requires d.Valid(input) && (d.state == ObjectStart || d.state == ObjectKey) && m < n
    requires
      var s := input.lexemes[d.pos..];
      |s| >= 2 && s[0].Str? && s[1] == Colon && ReadValue(s[2..]) == Some(m)
    ensures k >= 1 && AfterTokens(input, d, k) == Some(Decoder(d.pos + m + 2, ObjectComma, d.stack))
    decreases n, 0
  {
    hide NextToken, AfterTokens, ReadValue, ReadElements, ReadMembers;
    Slices(input.lexemes, d.pos, 0);
    Slices(input.lexemes, d.pos, 1);
    Slices(input.lexemes, d.pos, 2);
    KeyToken(input, d);
    var keyed := d.Skip(ObjectColon);
    var j := ValueTokens(input, keyed.Skip(ObjectValue), m);
    SeparatorSwallowed(input, keyed, ObjectValue, j);
    TokensJoin(input, d, 1, keyed, j, Decoder(d.pos + m + 2, ObjectComma, d.stack));
    k := 1 + j;
  }

  lemma KeyToken(input: Input, d: Decoder)
    requires d.Valid(input) && (d.state == ObjectStart || d.state == ObjectKey)
    requires d.pos < |input.lexemes| && input.lexemes[d.pos].Str?
    ensures AfterTokens(input, d, 1) == Some(d.Skip(ObjectColon)) && d.Skip(ObjectColon).Valid(input)
  {
    OneToken(input, d);
    hide AfterTokens;
  }
}
