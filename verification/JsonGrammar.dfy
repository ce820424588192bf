/** JSON values by themselves, and their texts: what the decoder's whole-value reads accept is exactly these. */
module JsonGrammar {
  import opened Wrappers
  import opened JsonStream

  datatype Json = JText(text: string) | JScalar(literal: string) | JArray(elements: Elements) | JObject(members: Members)

  datatype Elements = NoElement | Element(value: Json, more: Elements)

  datatype Members = NoMember | Member(key: string, value: Json, more: Members)

  /* ----- Texts ----- */

  function TextOf(v: Json): (s: seq<Lexeme>)
    ensures s != []
  {
    match v
    case JText(text) => [Str(text)]
    case JScalar(literal) => [Scalar(literal)]
    case JArray(elements) => [LBrack] + Inside(elements)
    case JObject(members) => [LBrace] + InsideObject(members)
  }

  /** An array's text behind its opening bracket. */
  function Inside(es: Elements): (s: seq<Lexeme>)
    ensures s != []
  {
    match es
    case NoElement => [RBrack]
    case Element(v, NoElement) => TextOf(v) + [RBrack]
    case Element(v, more) => TextOf(v) + ([Comma] + Inside(more))
  }

  /** An object's text behind its opening brace. */
  function InsideObject(ms: Members): (s: seq<Lexeme>)
    ensures s != []
  {
    match ms
    case NoMember => [RBrace]
    case Member(k, v, NoMember) => [Str(k), Colon] + (TextOf(v) + [RBrace])
    case Member(k, v, more) => [Str(k), Colon] + (TextOf(v) + ([Comma] + InsideObject(more)))
  }

  /** Where two texts meet. */
  lemma Meet(a: seq<Lexeme>, b: seq<Lexeme>)
    requires b != []
    ensures |a + b| == |a| + |b| && (a + b)[..|a|] == a && (a + b)[|a|..] == b
    ensures (a + b)[|a|] == b[0] && (a + b)[|a| + 1..] == b[1..]
    ensures a != [] ==> (a + b)[0] == a[0]
  {
  }

  /* ----- Every text is read ----- */

  lemma ContainerReads(s: seq<Lexeme>, n: nat)
    requires 2 <= n <= |s| && (s[0] == LBrack || s[0] == LBrace)
    requires
      if s[1] == (if s[0] == LBrack then RBrack else RBrace) then n == 2
      else (if s[0] == LBrack then ReadElements(s[1..]) else ReadMembers(s[1..])) == Some(n - 1)
    ensures ReadValue(s) == Some(n)
  {
    hide ReadElements, ReadMembers;
  }

  lemma ElementsFold(s: seq<Lexeme>, m: nat, n: nat)
    requires ReadValue(s) == Some(m) && m < n <= |s|
    requires (s[m] == RBrack && n == m + 1) || (s[m] == Comma && ReadElements(s[m + 1..]) == Some(n - m - 1))
    ensures ReadElements(s) == Some(n)
  {
    hide ReadValue, ReadMembers;
  }

  /** The text of a value is read, all of it. */
  lemma {:induction false} ReadsText(v: Json)
    ensures ReadValue(TextOf(v)) == Some(|TextOf(v)|)
    ensures TextOf(v)[0] != RBrack && TextOf(v)[0] != RBrace
    decreases v, 2
  {
    match v {
      case JText(_) =>
      case JScalar(_) =>
      case JArray(es) =>
        var s := Inside(es);
        if es.Element? {
          ReadsElements(es);
        }
        assert TextOf(v) == [LBrack] + s;
        hide *;
        Meet([LBrack], s);
        ContainerReads([LBrack] + s, |s| + 1);
      case JObject(ms) =>
        var s := InsideObject(ms);
        if ms.Member? {
          ReadsMembers(ms);
        }
        assert TextOf(v) == [LBrace] + s;
        hide *;
        Meet([LBrace], s);
        ContainerReads([LBrace] + s, |s| + 1);
    }
  }

  /** A value in front of something else is read just as well. */
  lemma ReadsInFront(text: seq<Lexeme>, behind: seq<Lexeme>)
    requires ReadValue(text) == Some(|text|) && behind != []
    ensures ReadValue(text + behind) == Some(|text|)
  {
    hide *;
    Meet(text, behind);
    assert text[..|text|] == text;
    ReadValueLocal(text, text + behind, |text|);
  }

  /** What stands behind an element, before these others. */
  function BehindElement(others: Elements): seq<Lexeme> {
    if others.NoElement? then [RBrack] else [Comma] + Inside(others)
  }

  lemma {:induction false} ReadsBehind(others: Elements)
    ensures
      var s := BehindElement(others);
      || s == [RBrack]
      || (|s| > 1 && s[0] == Comma && ReadElements(s[1..]) == Some(|s| - 1))
    decreases others, 1
  {
    if others.Element? {
      ReadsElements(others);
      hide Inside, ReadElements;
      assert ([Comma] + Inside(others))[1..] == Inside(others);
    }
  }

  lemma {:induction false} ReadsElements(es: Elements)
    requires es.Element?
    ensures ReadElements(Inside(es)) == Some(|Inside(es)|) && Inside(es)[0] != RBrack
    decreases es, 0
  {
    var text, behind := TextOf(es.value), BehindElement(es.more);
    assert Inside(es) == text + behind;
    hide *;
    ReadsText(es.value);
    ReadsBehind(es.more);
    Meet(text, behind);
    ReadsInFront(text, behind);
    ElementsFold(text + behind, |text|, |text| + |behind|);
  }

  /** What stands behind a member, before these others. */
  function BehindMember(others: Members): seq<Lexeme> {
    if others.NoMember? then [RBrace] else [Comma] + InsideObject(others)
  }

  lemma {:induction false} ReadsBehindMember(others: Members)
    ensures
      var s := BehindMember(others);
      || s == [RBrace]
      || (|s| > 1 && s[0] == Comma && ReadMembers(s[1..]) == Some(|s| - 1))
    decreases others, 1
  {
    if others.Member? {
      ReadsMembers(others);
      hide InsideObject, ReadMembers;
      assert ([Comma] + InsideObject(others))[1..] == InsideObject(others);
    }
  }

  lemma {:induction false} ReadsMembers(ms: Members)
    requires ms.Member?
    ensures ReadMembers(InsideObject(ms)) == Some(|InsideObject(ms)|) && InsideObject(ms)[0] != RBrace
    decreases ms, 0
  {
    var key, text, behind := [Str(ms.key), Colon], TextOf(ms.value), BehindMember(ms.more);
    assert InsideObject(ms) == key + (text + behind);
    hide *;
    ReadsText(ms.value);
    ReadsBehindMember(ms.more);
    Meet(text, behind);
    ReadsInFront(text, behind);
    Meet(key, text + behind);
    MemberReads(key, text + behind, |text|, |behind|);
  }

  /** A member's key in front of its value and what is behind. */
  lemma MemberReads(key: seq<Lexeme>, s: seq<Lexeme>, m: nat, k: nat)
    requires |key| == 2 && key[0].Str? && key[1] == Colon
    requires ReadValue(s) == Some(m) && m + k == |s| && k > 0
    requires (s[m] == RBrace && k == 1) || (s[m] == Comma && ReadMembers(s[m + 1..]) == Some(k - 1) && k > 1)
    ensures ReadMembers(key + s) == Some(|key + s|)
  {
    hide *;
    Meet(key, s);
    assert (key + s)[1] == key[1] && (key + s)[m + 2] == s[m];
    Slices(key + s, 2, m + 1);
    MembersFold(key + s, m, m + 2 + k);
  }

  /** Whatever follows it, the text of a value is read, all of it and no more. */
  lemma TextIsRead(v: Json, rest: seq<Lexeme>)
    ensures ReadValue(TextOf(v) + rest) == Some(|TextOf(v)|)
  {
    ReadsText(v);
    if rest == [] {
      assert TextOf(v) + rest == TextOf(v);
    } else {
      ReadsInFront(TextOf(v), rest);
    }
  }

  /* ----- Nothing else is ----- */

  lemma Split(s: seq<Lexeme>, i: nat, n: nat)
    requires i < n <= |s|
    ensures s[..n] == s[..i] + ([s[i]] + s[i + 1..][..n - i - 1])
    ensures i + 1 == n ==> s[..n] == s[..i] + [s[i]]
  {
  }

  /** What is read at the front of a text is the text of some value. */
  lemma {:induction false} ReadIsText(s: seq<Lexeme>, n: nat) returns (v: Json)
    requires ReadValue(s) == Some(n)
    ensures 0 < n <= |s| && TextOf(v) == s[..n]
    decreases n, 2
  {
    ValueUnfold(s, n);
    hide ReadValue, ReadElements, ReadMembers;
    if s[0].Str? {
      v := JText(s[0].text);
    } else if s[0].Scalar? {
      v := JScalar(s[0].literal);
    } else if n == 2 {
      v := if s[0] == LBrack then JArray(NoElement) else JObject(NoMember);
      assert s[..2] == [s[0]] + [s[1]];
    } else {
      FirstApart(s, n);
      hide Inside, InsideObject;
      if s[0] == LBrack {
        var es := ReadAreElements(s[1..], n - 1);
        v := JArray(es);
      } else {
        var ms := ReadAreMembers(s[1..], n - 1);
        v := JObject(ms);
      }
    }
  }

  lemma FirstApart(s: seq<Lexeme>, n: nat)
    requires 1 <= n <= |s|
    ensures s[..n] == [s[0]] + s[1..][..n - 1]
  {
  }

  lemma {:induction false} ReadAreElements(s: seq<Lexeme>, n: nat) returns (es: Elements)
    requires ReadElements(s) == Some(n)
    ensures n <= |s| && es.Element? && Inside(es) == s[..n]
    decreases n, 1
  {
    hide ReadValue, ReadElements, TextOf;
    var m := ElementsUnfold(s, n);
    var v := ReadIsText(s, m);
    Split(s, m, n);
    if s[m] == RBrack {
      es := Element(v, NoElement);
    } else {
      var more := ReadAreElements(s[m + 1..], n - m - 1);
      es := Element(v, more);
    }
  }

  lemma {:induction false} ReadAreMembers(s: seq<Lexeme>, n: nat) returns (ms: Members)
    requires ReadMembers(s) == Some(n)
    ensures n <= |s| && ms.Member? && InsideObject(ms) == s[..n]
    decreases n, 1
  {
    hide ReadValue, ReadMembers, TextOf;
    var m := MembersUnfold(s, n);
    var v := ReadIsText(s[2..], m);
    Slices(s, 2, m);
    Slices(s, 2, m + 1);
    Split(s[2..], m, n - 2);
    KeyApart(s, n);
    if s[m + 2] == RBrace {
      ms := Member(s[0].text, v, NoMember);
    } else {
      var more := ReadAreMembers(s[m + 3..], n - m - 3);
      ms := Member(s[0].text, v, more);
    }
  }

  lemma KeyApart(s: seq<Lexeme>, n: nat)
    requires 2 <= n <= |s|
    ensures s[..n] == [s[0], s[1]] + s[2..][..n - 2]
  {
  }

  /** The texts that count as one value are exactly those of values. */
  lemma ValuesAreTexts(s: seq<Lexeme>)
    ensures IsValue(s) <==> exists v :: s == TextOf(v)
  {
    if IsValue(s) {
      var v := ReadIsText(s, |s|);
      assert s[..|s|] == s;
    }
    if v :| s == TextOf(v) {
      ReadsText(v);
    }
  }
}
