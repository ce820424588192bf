/** The pattern of the head protocols, with Go's leftmost and greedy matching. */
module HeadPattern {
  import opened Wrappers

  /** A fixed text; an optional character; a character other than a newline; one or more of those. */
  datatype Element = Text(text: string) | Maybe(c: char) | AnyChar | AnyRun

  /** The element may match the next w characters at the position. */
  predicate Allows(e: Element, s: string, pos: nat, w: nat) {
    && pos + w <= |s|
    && match e
       case Text(text) => s[pos..pos + w] == text
       case Maybe(c) => w == 0 || (w == 1 && s[pos] == c)
       case AnyChar => w == 1 && s[pos] != '\n'
       case AnyRun => w >= 1 && '\n' !in s[pos..pos + w]
  }

  function Total(ws: seq<nat>, k: nat): nat
    requires k <= |ws|
  {
    if k == 0 then 0 else Total(ws, k - 1) + ws[k - 1]
  }

  /** One width for each element, which they may match one behind the other. */
  ghost predicate IsParse(pat: seq<Element>, s: string, pos: nat, ws: seq<nat>) {
    |ws| == |pat| && forall k :: 0 <= k < |pat| ==> Allows(pat[k], s, pos + Total(ws, k), ws[k])
  }

  /** Lexicographic order of widths: which of two parses is greedier in the first element where they differ. */
  predicate AtMostAsGreedy(a: seq<nat>, b: seq<nat>) {
    |a| == |b| && (a == [] || a[0] < b[0] || (a[0] == b[0] && AtMostAsGreedy(a[1..], b[1..])))
  }

  /* ----- The backtracking matcher ----- */

  /** The widths found from the position, the first element widest first. */
  function Match(pat: seq<Element>, s: string, pos: nat): (r: Option<seq<nat>>)
    requires pos <= |s|
    ensures r.Some? ==> |r.value| == |pat|
    decreases |pat|, |s| + 1
  {
    if pat == [] then Some([]) else Try(pat, s, pos, |s| - pos)
  }

  /** With the first element at most w wide. */
  function Try(pat: seq<Element>, s: string, pos: nat, w: nat): (r: Option<seq<nat>>)
    requires pat != [] && pos + w <= |s|
    ensures r.Some? ==> |r.value| == |pat|
    decreases |pat|, w
  {
    var behind := if Allows(pat[0], s, pos, w) then Match(pat[1..], s, pos + w) else None;
    if behind.Some? then Some([w] + behind.value)
    else if w == 0 then None
    else Try(pat, s, pos, w - 1)
  }

  lemma {:induction false} TotalBehind(ws: seq<nat>, k: nat)
    requires 1 <= k <= |ws|
    ensures Total(ws, k) == ws[0] + Total(ws[1..], k - 1)
  {
    if k > 1 {
      TotalBehind(ws, k - 1);
    }
  }

  lemma ParseBehind(pat: seq<Element>, s: string, pos: nat, ws: seq<nat>)
    requires |ws| == |pat| > 0
    ensures IsParse(pat, s, pos, ws) <==> Allows(pat[0], s, pos, ws[0]) && IsParse(pat[1..], s, pos + ws[0], ws[1..])
  {
    forall k | 1 <= k < |pat|
      ensures Total(ws, k) == ws[0] + Total(ws[1..], k - 1)
    {
      TotalBehind(ws, k);
    }
    if IsParse(pat, s, pos, ws) {
      forall k | 0 <= k < |pat| - 1
        ensures Allows(pat[1..][k], s, pos + ws[0] + Total(ws[1..], k), ws[1..][k])
      {
        assert Allows(pat[k + 1], s, pos + Total(ws, k + 1), ws[k + 1]);
      }
    }
    if Allows(pat[0], s, pos, ws[0]) && IsParse(pat[1..], s, pos + ws[0], ws[1..]) {
      forall k | 0 <= k < |pat|
        ensures Allows(pat[k], s, pos + Total(ws, k), ws[k])
      {
        if k > 0 {
          assert Allows(pat[1..][k - 1], s, pos + ws[0] + Total(ws[1..], k - 1), ws[1..][k - 1]);
        }
      }
    }
  }

  /** What the matcher finds is a parse. */
  lemma {:induction false} MatchParses(pat: seq<Element>, s: string, pos: nat)
    requires pos <= |s| && Match(pat, s, pos).Some?
    ensures IsParse(pat, s, pos, Match(pat, s, pos).value)
    decreases |pat|, |s| + 1
  {
    if pat != [] {
      TryParses(pat, s, pos, |s| - pos);
    }
  }

  lemma {:induction false} TryParses(pat: seq<Element>, s: string, pos: nat, w: nat)
    requires pat != [] && pos + w <= |s| && Try(pat, s, pos, w).Some?
    ensures IsParse(pat, s, pos, Try(pat, s, pos, w).value)
    decreases |pat|, w
  {
    hide Allows, IsParse, Match;
    var ws := Try(pat, s, pos, w).value;
    if Allows(pat[0], s, pos, w) && Match(pat[1..], s, pos + w).Some? {
      MatchParses(pat[1..], s, pos + w);
      assert ws[1..] == Match(pat[1..], s, pos + w).value;
      ParseBehind(pat, s, pos, ws);
    } else {
      TryParses(pat, s, pos, w - 1);
    }
  }

  /** Where there is a parse the matcher finds one, and one that is at least as greedy. */
  lemma {:induction false} MatchGreediest(pat: seq<Element>, s: string, pos: nat, ws: seq<nat>)
    requires pos <= |s| && IsParse(pat, s, pos, ws)
    ensures Match(pat, s, pos).Some? && AtMostAsGreedy(ws, Match(pat, s, pos).value)
    decreases |pat|, |s| + 1
  {
    if pat != [] {
      assert Total(ws, 0) == 0;
      assert Allows(pat[0], s, pos, ws[0]);
      TryGreediest(pat, s, pos, |s| - pos, ws);
    }
  }

  lemma {:induction false} TryGreediest(pat: seq<Element>, s: string, pos: nat, w: nat, ws: seq<nat>)
    requires pat != [] && pos + w <= |s| && IsParse(pat, s, pos, ws) && ws[0] <= w
    ensures Try(pat, s, pos, w).Some? && AtMostAsGreedy(ws, Try(pat, s, pos, w).value)
    decreases |pat|, w
  {
    ParseBehind(pat, s, pos, ws);
    assert |ws| == |pat|;
    TryUnfolds(pat, s, pos, w);
    hide *;
    if ws[0] == w {
      MatchGreediest(pat[1..], s, pos + w, ws[1..]);
      AsGreedyBehind(w, ws[1..], Match(pat[1..], s, pos + w).value);
      assert ws == [w] + ws[1..];
    } else if !(Allows(pat[0], s, pos, w) && Match(pat[1..], s, pos + w).Some?) {
      TryGreediest(pat, s, pos, w - 1, ws);
    } else {
      WiderIsGreedier(ws, [w] + Match(pat[1..], s, pos + w).value);
    }
  }

  lemma TryUnfolds(pat: seq<Element>, s: string, pos: nat, w: nat)
    requires pat != [] && pos + w <= |s|
    ensures
      var behind := Match(pat[1..], s, pos + w);
      if Allows(pat[0], s, pos, w) && behind.Some? then Try(pat, s, pos, w) == Some([w] + behind.value)
      else w > 0 ==> Try(pat, s, pos, w) == Try(pat, s, pos, w - 1)
  {
    hide Allows, Match;
  }

  lemma AsGreedyBehind(w: nat, a: seq<nat>, b: seq<nat>)
    requires AtMostAsGreedy(a, b)
    ensures AtMostAsGreedy([w] + a, [w] + b)
  {
    assert ([w] + a)[1..] == a && ([w] + b)[1..] == b;
  }

  lemma WiderIsGreedier(a: seq<nat>, b: seq<nat>)
    requires |a| == |b| > 0 && a[0] < b[0]
    ensures AtMostAsGreedy(a, b)
  {
  }

  /** The matcher finds the greediest parse if there is any, and nothing otherwise. */
  lemma MatchIsGreediest(pat: seq<Element>, s: string, pos: nat, ws: seq<nat>)
    requires pos <= |s|
    ensures Match(pat, s, pos).Some? ==> IsParse(pat, s, pos, Match(pat, s, pos).value)
    ensures IsParse(pat, s, pos, ws) ==> Match(pat, s, pos).Some? && AtMostAsGreedy(ws, Match(pat, s, pos).value)
  {
    if Match(pat, s, pos).Some? {
      MatchParses(pat, s, pos);
    }
    if IsParse(pat, s, pos, ws) {
      MatchGreediest(pat, s, pos, ws);
    }
  }

  /** The leftmost position, from the given one on, where there is a match. */
  function Find(pat: seq<Element>, s: string, from: nat): (r: Option<(nat, seq<nat>)>)
    requires from <= |s|
    ensures r.Some? ==> from <= r.value.0 <= |s| && Match(pat, s, r.value.0) == Some(r.value.1)
    ensures r.Some? ==> forall p :: from <= p < r.value.0 ==> Match(pat, s, p) == None
    ensures r == None ==> forall p :: from <= p <= |s| ==> Match(pat, s, p) == None
    decreases |s| - from
  {
    var here := Match(pat, s, from);
    if here.Some? then Some((from, here.value))
    else if from == |s| then None
    else Find(pat, s, from + 1)
  }

  /* ----- The head protocol ----- */

  const PREFIX: string := "/legs/head"

  /** /legs/head/?(/.+)/0.0.1, whose unescaped dots are any characters. */
  const PATTERN: seq<Element> :=
    [Text(PREFIX), Maybe('/'), Text("/"), AnyRun, Text("/0"), AnyChar, Text("0"), AnyChar, Text("1")]

  /** findHeadProtocolMatches: what the group of the pattern's match holds. */
  function FindHeadProtocolMatches(pid: string): Option<string> {
    match Find(PATTERN, pid, 0)
    case None => None
    case Some((pos, ws)) =>
      MatchIsGreediest(PATTERN, pid, pos, ws);
      HeadParse(pid, pos, ws);
      var start := pos + 10 + ws[1];
      Some(pid[start..start + 1 + ws[3]])
  }

  /** What a parse of the pattern comes to: the optional slash, and the run of the group. */
  lemma HeadParse(s: string, pos: nat, ws: seq<nat>)
    requires IsParse(PATTERN, s, pos, ws)
    ensures HeadShape(ws)
    ensures
      var start := pos + 10 + ws[1];
      && start + 1 + ws[3] + 6 <= |s|
      && s[start] == '/' && '\n' !in s[start + 1..start + 1 + ws[3]]
      && (ws[1] == 1 ==> s[pos + 10] == '/')
  {
    ElementsAllowed(s, pos, ws);
    Totals(ws);
    HeadWidths(s, pos, ws);
    hide IsParse, Total, Allows;
    TextAllowed("/", s, pos + Total(ws, 2), ws[2]);
    MaybeAllowed(s, pos + Total(ws, 1), ws[1]);
    RunAllowed(s, pos + Total(ws, 3), ws[3]);
    TextAllowed("1", s, pos + Total(ws, 8), ws[8]);
  }

  /** The texts before the optional slash and behind the run. */
  lemma HeadTexts(s: string, pos: nat, ws: seq<nat>)
    requires IsParse(PATTERN, s, pos, ws)
    ensures HeadShape(ws) && pos + 10 + ws[1] + 1 + ws[3] + 6 <= |s| && s[pos..pos + 10] == "/legs/head"
    ensures
      var v := pos + 10 + ws[1] + 1 + ws[3];
      s[v] == '/' && s[v + 1] == '0' && s[v + 2] != '\n' && s[v + 3] == '0' && s[v + 4] != '\n' && s[v + 5] == '1'
  {
    HeadParse(s, pos, ws);
    ElementsAllowed(s, pos, ws);
    Totals(ws);
    hide IsParse, Total;
    VersionTexts(s, pos + Total(ws, 4));
  }

  lemma VersionTexts(s: string, v: nat)
    requires Allows(Text("/0"), s, v, 2) && Allows(AnyChar, s, v + 2, 1) && Allows(Text("0"), s, v + 3, 1)
    requires Allows(AnyChar, s, v + 4, 1) && Allows(Text("1"), s, v + 5, 1)
    ensures v + 6 <= |s| && s[v] == '/' && s[v + 1] == '0' && s[v + 2] != '\n' && s[v + 3] == '0'
    ensures s[v + 4] != '\n' && s[v + 5] == '1'
  {
    assert s[v..v + 2][0] == s[v] && s[v..v + 2][1] == s[v + 1];
    assert s[v + 3..v + 4][0] == s[v + 3] && s[v + 5..v + 6][0] == s[v + 5];
  }

  lemma HeadWidths(s: string, pos: nat, ws: seq<nat>)
    requires IsParse(PATTERN, s, pos, ws)
    ensures HeadShape(ws)
  {
    ElementsAllowed(s, pos, ws);
    hide IsParse, Total;
    FrontWidths(s, pos + Total(ws, 0), pos + Total(ws, 1), pos + Total(ws, 2), pos + Total(ws, 3), ws[0], ws[1], ws[2], ws[3]);
    BackWidths(s, pos + Total(ws, 4), pos + Total(ws, 5), pos + Total(ws, 6), pos + Total(ws, 7), pos + Total(ws, 8),
               ws[4], ws[5], ws[6], ws[7], ws[8]);
    hide Allows;
  }

  /** The widths that the pattern leaves no choice about, and the bounds of the others. */
  predicate HeadShape(ws: seq<nat>) {
    && |ws| == 9 && ws[0] == 10 && ws[1] <= 1 && ws[2] == 1 && ws[3] >= 1
    && ws[4] == 2 && ws[5] == 1 && ws[6] == 1 && ws[7] == 1 && ws[8] == 1
  }

  lemma FrontWidths(s: string, p0: nat, p1: nat, p2: nat, p3: nat, w0: nat, w1: nat, w2: nat, w3: nat)
    requires Allows(Text(PREFIX), s, p0, w0) && Allows(Maybe('/'), s, p1, w1)
    requires Allows(Text("/"), s, p2, w2) && Allows(AnyRun, s, p3, w3)
    ensures w0 == 10 && w1 <= 1 && w2 == 1 && w3 >= 1
  {
  }

  lemma BackWidths(s: string, p4: nat, p5: nat, p6: nat, p7: nat, p8: nat, w4: nat, w5: nat, w6: nat, w7: nat, w8: nat)
    requires Allows(Text("/0"), s, p4, w4) && Allows(AnyChar, s, p5, w5)
    requires Allows(Text("0"), s, p6, w6) && Allows(AnyChar, s, p7, w7) && Allows(Text("1"), s, p8, w8)
    ensures w4 == 2 && w5 == 1 && w6 == 1 && w7 == 1 && w8 == 1
  {
  }

  lemma ElementsAllowed(s: string, pos: nat, ws: seq<nat>)
    requires IsParse(PATTERN, s, pos, ws)
    ensures |ws| == 9
    ensures Allows(Text(PREFIX), s, pos + Total(ws, 0), ws[0]) && Allows(Maybe('/'), s, pos + Total(ws, 1), ws[1])
    ensures Allows(Text("/"), s, pos + Total(ws, 2), ws[2]) && Allows(AnyRun, s, pos + Total(ws, 3), ws[3])
    ensures Allows(Text("/0"), s, pos + Total(ws, 4), ws[4]) && Allows(AnyChar, s, pos + Total(ws, 5), ws[5])
    ensures Allows(Text("0"), s, pos + Total(ws, 6), ws[6]) && Allows(AnyChar, s, pos + Total(ws, 7), ws[7])
    ensures Allows(Text("1"), s, pos + Total(ws, 8), ws[8])
  {
    hide Allows, Total;
    assert |PATTERN| == 9;
    forall k | 0 <= k < 9
      ensures Allows(PATTERN[k], s, pos + Total(ws, k), ws[k])
    {
    }
  }

  lemma TextAllowed(text: string, s: string, pos: nat, w: nat)
    requires text != "" && Allows(Text(text), s, pos, w)
    ensures w == |text| && pos + w <= |s| && s[pos] == text[0]
  {
    assert s[pos..pos + w][0] == s[pos];
  }

  lemma MaybeAllowed(s: string, pos: nat, w: nat)
    requires Allows(Maybe('/'), s, pos, w)
    ensures w <= 1 && pos + w <= |s| && (w == 1 ==> s[pos] == '/')
  {
  }

  lemma RunAllowed(s: string, pos: nat, w: nat)
    requires Allows(AnyRun, s, pos, w)
    ensures w >= 1 && pos + w <= |s| && '\n' !in s[pos..pos + w]
  {
  }

  lemma Totals(ws: seq<nat>)
    requires |ws| == 9
    ensures Total(ws, 0) == 0 && Total(ws, 1) == ws[0] && Total(ws, 2) == Total(ws, 1) + ws[1]
    ensures Total(ws, 3) == Total(ws, 2) + ws[2] && Total(ws, 4) == Total(ws, 3) + ws[3]
    ensures Total(ws, 5) == Total(ws, 4) + ws[4] && Total(ws, 6) == Total(ws, 5) + ws[5]
    ensures Total(ws, 7) == Total(ws, 6) + ws[6] && Total(ws, 8) == Total(ws, 7) + ws[7]
  {
  }

  /** And conversely: whatever reads so is a parse of the pattern, so that the pattern matches exactly such texts. */
  lemma HeadTextParses(s: string, pos: nat, ws: seq<nat>)
    requires
      && |ws| == 9 && ws[0] == 10 && ws[1] <= 1 && ws[2] == 1 && ws[3] >= 1
      && ws[4] == 2 && ws[5] == 1 && ws[6] == 1 && ws[7] == 1 && ws[8] == 1
    requires
      var start := pos + 10 + ws[1];
      && start + 1 + ws[3] + 6 <= |s| && s[pos..pos + 10] == "/legs/head"
      && s[start] == '/' && '\n' !in s[start + 1..start + 1 + ws[3]] && (ws[1] == 1 ==> s[pos + 10] == '/')
    requires
      var v := pos + 10 + ws[1] + 1 + ws[3];
      s[v] == '/' && s[v + 1] == '0' && s[v + 2] != '\n' && s[v + 3] == '0' && s[v + 4] != '\n' && s[v + 5] == '1'
    ensures IsParse(PATTERN, s, pos, ws)
  {
    var start, v := pos + 10 + ws[1], pos + 10 + ws[1] + 1 + ws[3];
    Totals(ws);
    hide Total;
    assert s[start..start + 1] == "/" && s[v..v + 2] == "/0" && s[v + 3..v + 4] == "0" && s[v + 5..v + 6] == "1";
    ElementsParse(s, pos, ws);
  }

  /** A topic's protocol, with what stands at the version's two dots, which the pattern leaves open. */
  function ProtocolOf(t: string, x: char, y: char): string {
    "/legs/head" + t + "/0" + [x] + "0" + [y] + "1"
  }

  /** A protocol of a topic parses in the two ways that its slashes allow. */
  lemma ProtocolParses(t: string, x: char, y: char, slash: nat)
    requires x != '\n' && y != '\n' && slash <= 1 && |t| >= 2 + slash && t[0] == t[slash] == '/' && '\n' !in t
    ensures IsParse(PATTERN, ProtocolOf(t, x, y), 0, [10, slash, 1, |t| - 1 - slash, 2, 1, 1, 1, 1])
  {
    var ws: seq<nat> := [10, slash, 1, |t| - 1 - slash, 2, 1, 1, 1, 1];
    TopicAllowed(t, x, y, slash);
    VersionAllowed(t, x, y);
    Totals(ws);
    hide *;
    ElementsParse(ProtocolOf(t, x, y), 0, ws);
  }

  lemma ElementsParse(s: string, pos: nat, ws: seq<nat>)
    requires |ws| == 9
    requires Allows(Text(PREFIX), s, pos + Total(ws, 0), ws[0]) && Allows(Maybe('/'), s, pos + Total(ws, 1), ws[1])
    requires Allows(Text("/"), s, pos + Total(ws, 2), ws[2]) && Allows(AnyRun, s, pos + Total(ws, 3), ws[3])
    requires Allows(Text("/0"), s, pos + Total(ws, 4), ws[4]) && Allows(AnyChar, s, pos + Total(ws, 5), ws[5])
    requires Allows(Text("0"), s, pos + Total(ws, 6), ws[6]) && Allows(AnyChar, s, pos + Total(ws, 7), ws[7])
    requires Allows(Text("1"), s, pos + Total(ws, 8), ws[8])
    ensures IsParse(PATTERN, s, pos, ws)
  {
    hide Allows, Total;
    forall k | 0 <= k < 9
      ensures Allows(PATTERN[k], s, pos + Total(ws, k), ws[k])
    {
      assert k == 0 || k == 1 || k == 2 || k == 3 || k == 4 || k == 5 || k == 6 || k == 7 || k == 8;
    }
  }

  lemma TopicAllowed(t: string, x: char, y: char, slash: nat)
    requires x != '\n' && y != '\n' && slash <= 1 && |t| >= 2 + slash && t[0] == t[slash] == '/' && '\n' !in t
    ensures
      var s := ProtocolOf(t, x, y);
      && Allows(Text(PREFIX), s, 0, 10) && Allows(Maybe('/'), s, 10, slash) && Allows(Text("/"), s, 10 + slash, 1)
      && Allows(AnyRun, s, 11 + slash, |t| - 1 - slash)
  {
    var s := ProtocolOf(t, x, y);
    assert s[0..10] == PREFIX;
    assert s[10] == t[0] && s[10 + slash] == t[slash];
    assert s[10 + slash..11 + slash] == "/";
    assert s[11 + slash..10 + |t|] == t[1 + slash..];
  }

  lemma VersionAllowed(t: string, x: char, y: char)
    requires x != '\n' && y != '\n'
    ensures
      var (s, n) := (ProtocolOf(t, x, y), 10 + |t|);
      && Allows(Text("/0"), s, n, 2) && Allows(AnyChar, s, n + 2, 1) && Allows(Text("0"), s, n + 3, 1)
      && Allows(AnyChar, s, n + 4, 1) && Allows(Text("1"), s, n + 5, 1)
  {
    var s, n := ProtocolOf(t, x, y), 10 + |t|;
    var version := ['/', '0', x, '0', y, '1'];
    assert s == "/legs/head" + t + version;
    assert forall i :: 0 <= i < 6 ==> s[n + i] == version[i];
    assert s[n..n + 2] == "/0" && s[n + 3..n + 4] == "0" && s[n + 5..n + 6] == "1";
  }

  /** A topic to which the group is equal: a slash, at least one more character, no newline, and no
      second slash unless there is nothing behind it, for the pattern takes one slash for itself. */
  predicate Recoverable(t: string) {
    |t| >= 2 && t[0] == '/' && '\n' !in t && (t[1] == '/' ==> |t| == 2)
  }

  /** The topic is read back from its protocol exactly when it is recoverable. */
  lemma TopicRecovered(t: string, x: char, y: char)
    ensures FindHeadProtocolMatches(ProtocolOf(t, x, y)) == Some(t) <==> Recoverable(t) && x != '\n' && y != '\n'
  {
    if Recoverable(t) && x != '\n' && y != '\n' {
      Recovers(t, x, y);
    }
    if FindHeadProtocolMatches(ProtocolOf(t, x, y)) == Some(t) {
      RecoveredHasShape(t, x, y);
      if t[1] == '/' && |t| > 2 {
        TakesTheSlash(t, x, y);
      }
    }
  }

  lemma RecoveredHasShape(t: string, x: char, y: char)
    requires FindHeadProtocolMatches(ProtocolOf(t, x, y)) == Some(t)
    ensures |t| >= 2 && t[0] == '/' && '\n' !in t && x != '\n' && y != '\n'
  {
    var s := ProtocolOf(t, x, y);
    assert |s| == |t| + 16 && s[|t| + 12] == x && s[|t| + 14] == y;
    hide ProtocolOf;
    var pos, ws := GroupOf(s);
    GroupText(s, pos + 10 + ws[1], ws[3]);
  }

  /** Where the group of the first match lies. */
  lemma GroupOf(s: string) returns (pos: nat, ws: seq<nat>)
    requires FindHeadProtocolMatches(s).Some?
    ensures Find(PATTERN, s, 0) == Some((pos, ws)) && HeadShape(ws)
    ensures
      var start := pos + 10 + ws[1];
      && start + 1 + ws[3] + 6 <= |s| && s[start] == '/' && '\n' !in s[start + 1..start + 1 + ws[3]]
      && FindHeadProtocolMatches(s) == Some(s[start..start + 1 + ws[3]])
      && s[start + 1 + ws[3] + 2] != '\n' && s[start + 1 + ws[3] + 4] != '\n'
  {
    hide IsParse;
    pos, ws := Find(PATTERN, s, 0).value.0, Find(PATTERN, s, 0).value.1;
    MatchIsGreediest(PATTERN, s, pos, ws);
    HeadParse(s, pos, ws);
    HeadTexts(s, pos, ws);
  }

  lemma GroupText(s: string, start: nat, n: nat)
    requires 1 <= n && start + 1 + n <= |s| && s[start] == '/' && '\n' !in s[start + 1..start + 1 + n]
    ensures
      var t := s[start..start + 1 + n];
      |t| >= 2 && t[0] == '/' && '\n' !in t
  {
    var t := s[start..start + 1 + n];
    assert t == [s[start]] + s[start + 1..start + 1 + n];
  }

  /** No match from the front of a recoverable topic's protocol spends the slash on the optional part. */
  lemma LeavesTheSlash(t: string, x: char, y: char, ws: seq<nat>)
    requires x != '\n' && y != '\n' && Recoverable(t) && IsParse(PATTERN, ProtocolOf(t, x, y), 0, ws)
    ensures ws[1] == 0
  {
    HeadParse(ProtocolOf(t, x, y), 0, ws);
    assert ProtocolOf(t, x, y)[11] == t[1];
    hide IsParse;
  }

  lemma MatchAtFront(t: string, x: char, y: char) returns (ws: seq<nat>)
    requires x != '\n' && y != '\n' && Recoverable(t)
    ensures Match(PATTERN, ProtocolOf(t, x, y), 0) == Some(ws)
    ensures IsParse(PATTERN, ProtocolOf(t, x, y), 0, ws) && ws[1] == 0 && ws[3] == |t| - 1
  {
    PlainParse(t, x, y);
    var plain: seq<nat> := [10, 0, 1, |t| - 1, 2, 1, 1, 1, 1];
    hide *;
    MatchIsGreediest(PATTERN, ProtocolOf(t, x, y), 0, plain);
    ws := Match(PATTERN, ProtocolOf(t, x, y), 0).value;
    LeavesTheSlash(t, x, y, ws);
    HeadParse(ProtocolOf(t, x, y), 0, ws);
    LongestRun(t, x, y, ws);
    GreedierRun(plain, ws);
  }

  lemma PlainParse(t: string, x: char, y: char)
    requires x != '\n' && y != '\n' && Recoverable(t)
    ensures IsParse(PATTERN, ProtocolOf(t, x, y), 0, [10, 0, 1, |t| - 1, 2, 1, 1, 1, 1])
  {
    hide IsParse, ProtocolOf;
    ProtocolParses(t, x, y, 0);
  }

  /** The run leaves room for the version. */
  lemma LongestRun(t: string, x: char, y: char, ws: seq<nat>)
    requires IsParse(PATTERN, ProtocolOf(t, x, y), 0, ws)
    ensures |ws| == 9 && ws[1] + ws[3] <= |t| - 1
  {
    HeadParse(ProtocolOf(t, x, y), 0, ws);
  }

  lemma Recovers(t: string, x: char, y: char)
    requires x != '\n' && y != '\n' && Recoverable(t)
    ensures FindHeadProtocolMatches(ProtocolOf(t, x, y)) == Some(t)
  {
    var ws := MatchAtFront(t, x, y);
    hide Match, IsParse;
    assert Find(PATTERN, ProtocolOf(t, x, y), 0) == Some((0, ws));
    assert ProtocolOf(t, x, y)[10..10 + |t|] == t;
  }

  /** With the same optional part, the greedier of two parses of the pattern has the longer run. */
  lemma GreedierRun(a: seq<nat>, b: seq<nat>)
    requires |a| == |b| == 9 && AtMostAsGreedy(a, b) && a[0] == b[0] && a[1] <= b[1] && a[2] == b[2]
    ensures a[1] == b[1] ==> a[3] <= b[3]
  {
    assert a[1..][1..][1..][0] == a[3] && b[1..][1..][1..][0] == b[3];
    assert a[1..][1..][0] == a[2] && b[1..][1..][0] == b[2];
    assert AtMostAsGreedy(a[1..], b[1..]);
    if a[1] == b[1] {
      assert AtMostAsGreedy(a[1..][1..], b[1..][1..]);
      assert AtMostAsGreedy(a[1..][1..][1..], b[1..][1..][1..]);
    }
  }

  /** Of two slashes with more behind them the pattern's own optional one takes the first. */
  lemma TakesTheSlash(t: string, x: char, y: char)
    requires x != '\n' && y != '\n' && |t| > 2 && t[0] == t[1] == '/' && '\n' !in t
    ensures FindHeadProtocolMatches(ProtocolOf(t, x, y)) != Some(t)
  {
    var s := ProtocolOf(t, x, y);
    var taken := SlashTaken(t, x, y);
    assert Find(PATTERN, s, 0) == Some((0, taken));
    if FindHeadProtocolMatches(s) == Some(t) {
      var pos, ws := GroupOf(s);
    }
  }

  lemma SlashTaken(t: string, x: char, y: char) returns (ws: seq<nat>)
    requires x != '\n' && y != '\n' && |t| > 2 && t[0] == t[1] == '/' && '\n' !in t
    ensures Match(PATTERN, ProtocolOf(t, x, y), 0) == Some(ws) && |ws| == 9 && ws[1] == 1
  {
    ProtocolParses(t, x, y, 1);
    var eager: seq<nat> := [10, 1, 1, |t| - 2, 2, 1, 1, 1, 1];
    hide IsParse, Match, ProtocolOf;
    MatchIsGreediest(PATTERN, ProtocolOf(t, x, y), 0, eager);
    ws := Match(PATTERN, ProtocolOf(t, x, y), 0).value;
    HeadParse(ProtocolOf(t, x, y), 0, ws);
    assert ws[1..][0] == ws[1] && eager[1..][0] == 1;
  }
}
