/** The Windows command line of libuv/src/win/process.c, and the rules by which the C runtime
    of the new process takes it apart again. */
module CommandLine {

  newtype WChar = x: int | 0 <= x < 0x1_0000

  const NUL: WChar := 0
  const TAB: WChar := 9
  const SPACE: WChar := 32
  const QUOTE: WChar := 34
  const BACKSLASH: WChar := 92

  type Text = seq<WChar>

  predicate Blank(c: WChar) {
    c == SPACE || c == TAB
  }

  // ---- what quote_cmd_arg writes ----

  /** wcspbrk: one of the characters occurs. */
  predicate Contains(s: Text, chars: set<WChar>) {
    exists i :: 0 <= i < |s| && s[i] in chars
  }

  /** Only backslashes separate the start of `s` from a quote or from its end. */
  predicate QuoteAhead(s: Text) {
    s == [] || s[0] == QUOTE || (s[0] == BACKSLASH && QuoteAhead(s[1..]))
  }

  function Escape(s: Text): Text {
    if s == [] then []
    else if s[0] == QUOTE || (s[0] == BACKSLASH && QuoteAhead(s[1..])) then [BACKSLASH, s[0]] + Escape(s[1..])
    else [s[0]] + Escape(s[1..])
  }

  function Quote(s: Text): Text {
    if s == [] then []
    else if !Contains(s, {SPACE, TAB, QUOTE}) then s
    else if !Contains(s, {QUOTE, BACKSLASH}) then [QUOTE] + s + [QUOTE]
    else [QUOTE] + Escape(s) + [QUOTE]
  }

  /** The whole line: what is written for each argument, separated by single spaces. */
  function Line(args: seq<Text>, verbatim: bool): Text {
    if args == [] then []
    else
      var first := Piece(args[0], verbatim);
      if |args| == 1 then first else first + [SPACE] + Line(args[1..], verbatim)
  }

  // ---- how the C runtime reads it ----

  function Backslashes(n: nat): Text {
    seq(n, _ => BACKSLASH)
  }

  /** One argument, from inside (`quoted`) or outside quotes, with `n` backslashes read but not
      yet interpreted; the result is the argument and the rest of the line. Runtimes differ in
      whether a doubled quote ends the quoted part: `stay` covers both. */
  function ReadArg(line: Text, quoted: bool, n: nat, stay: bool): (Text, Text)
    decreases |line|
  {
    if line == [] then (Backslashes(n), [])
    else if line[0] == BACKSLASH then ReadArg(line[1..], quoted, n + 1, stay)
    else if line[0] == QUOTE then
      if n % 2 == 1 then
        var (a, rest) := ReadArg(line[1..], quoted, 0, stay);
        (Backslashes(n / 2) + [QUOTE] + a, rest)
      else if quoted && |line| > 1 && line[1] == QUOTE then
        var (a, rest) := ReadArg(line[2..], stay, 0, stay);
        (Backslashes(n / 2) + [QUOTE] + a, rest)
      else
        var (a, rest) := ReadArg(line[1..], !quoted, 0, stay);
        (Backslashes(n / 2) + a, rest)
    else if !quoted && Blank(line[0]) then (Backslashes(n), line)
    else
      var (a, rest) := ReadArg(line[1..], quoted, 0, stay);
      (Backslashes(n) + [line[0]] + a, rest)
  }

  lemma {:induction false} ReadArgShortens(line: Text, quoted: bool, n: nat, stay: bool)
    ensures |ReadArg(line, quoted, n, stay).1| <= |line|
    ensures line != [] && !Blank(line[0]) ==> |ReadArg(line, quoted, n, stay).1| < |line|
    decreases |line|
  {
    if line != [] {
      ReadArgShortens(line[1..], quoted, n + 1, stay);
      ReadArgShortens(line[1..], quoted, 0, stay);
      ReadArgShortens(line[1..], !quoted, 0, stay);
      if |line| > 1 {
        ReadArgShortens(line[2..], stay, 0, stay);
      }
    }
  }

  /** All arguments of a line, by the rules for the arguments after argv[0]. */
  function ReadArgs(line: Text, stay: bool): seq<Text>
    decreases |line|
  {
    if line == [] then []
    else if Blank(line[0]) then ReadArgs(line[1..], stay)
    else
      ReadArgShortens(line, false, 0, stay);
      var (a, rest) := ReadArg(line, false, 0, stay);
      [a] + ReadArgs(rest, stay)
  }

  // ---- the round trip ----

  predicate EndsArg(tail: Text) {
    tail == [] || Blank(tail[0])
  }

  /** An argument written without quotes is read back, whatever its backslashes. */
  lemma {:induction false} ReadPlain(s: Text, tail: Text, n: nat, stay: bool)
    requires !Contains(s, {SPACE, TAB, QUOTE}) && EndsArg(tail)
    ensures ReadArg(s + tail, false, n, stay) == (Backslashes(n) + s, tail)
    decreases |s|
  {
    if s == [] {
      assert s + tail == tail && Backslashes(n) + s == Backslashes(n);
    } else {
      assert (s + tail)[1..] == s[1..] + tail;
      assert s[0] !in {SPACE, TAB, QUOTE};
      assert forall i :: 0 <= i < |s[1..]| ==> s[1..][i] == s[i + 1];
      if s[0] == BACKSLASH {
        ReadPlain(s[1..], tail, n + 1, stay);
        assert Backslashes(n + 1) + s[1..] == Backslashes(n) + s;
      } else {
        ReadPlain(s[1..], tail, 0, stay);
        assert Backslashes(n) + [s[0]] + (Backslashes(0) + s[1..]) == Backslashes(n) + s;
      }
    }
  }

  lemma ReadBackslash(rest: Text, quoted: bool, n: nat, stay: bool)
    ensures ReadArg([BACKSLASH] + rest, quoted, n, stay) == ReadArg(rest, quoted, n + 1, stay)
  {
    assert ([BACKSLASH] + rest)[1..] == rest;
  }

  lemma ReadLiteralQuote(rest: Text, quoted: bool, n: nat, stay: bool)
    requires n % 2 == 1
    ensures var (a, r) := ReadArg(rest, quoted, 0, stay);
      ReadArg([QUOTE] + rest, quoted, n, stay) == (Backslashes(n / 2) + [QUOTE] + a, r)
  {
    assert ([QUOTE] + rest)[1..] == rest;
  }

  lemma ReadOrdinary(c: WChar, rest: Text, n: nat, stay: bool)
    requires c != QUOTE && c != BACKSLASH
    ensures var (a, r) := ReadArg(rest, true, 0, stay);
      ReadArg([c] + rest, true, n, stay) == (Backslashes(n) + [c] + a, r)
  {
    assert ([c] + rest)[1..] == rest;
  }

  lemma ReadClosingQuote(tail: Text, n: nat, stay: bool)
    requires n % 2 == 0 && EndsArg(tail)
    ensures ReadArg([QUOTE] + tail, true, n, stay) == (Backslashes(n / 2), tail)
  {
    assert ([QUOTE] + tail)[1..] == tail;
    assert Backslashes(0) == [] && ReadArg(tail, false, 0, stay) == (Backslashes(0), tail);
    assert Backslashes(n / 2) + [] == Backslashes(n / 2);
  }

  /** What is left of the line from `s` on, inside quotes. */
  function Inside(s: Text, tail: Text): Text {
    Escape(s) + [QUOTE] + tail
  }

  lemma InsideHead(s: Text, tail: Text)
    requires s != []
    ensures var rest := Inside(s[1..], tail);
      Inside(s, tail) == if s[0] == QUOTE || (s[0] == BACKSLASH && QuoteAhead(s[1..])) then [BACKSLASH] + ([s[0]] + rest)
                         else [s[0]] + rest
  {
  }

  lemma BackslashesAndText(k: nat, s: Text)
    ensures s == [] ==> Backslashes(k) + s == Backslashes(k)
    ensures s != [] && s[0] == BACKSLASH ==> Backslashes(k + 1) + s[1..] == Backslashes(k) + s
    ensures s != [] ==> Backslashes(k) + [s[0]] + (Backslashes(0) + s[1..]) == Backslashes(k) + s
  {
  }

  /** Inside quotes, the escaped text is read back up to the closing quote; `k` backslashes of
      the argument came before `s`, and were doubled if a quote follows them. */
  lemma {:induction false} ReadEscaped(s: Text, tail: Text, k: nat, stay: bool)
    requires EndsArg(tail)
    ensures ReadArg(Inside(s, tail), true, if QuoteAhead(s) then 2 * k else k, stay) == (Backslashes(k) + s, tail)
    decreases |s|
  {
    BackslashesAndText(k, s);
    if s == [] {
      assert Inside(s, tail) == [QUOTE] + tail;
      ReadClosingQuote(tail, 2 * k, stay);
    } else {
      InsideHead(s, tail);
      var rest := Inside(s[1..], tail);
      if s[0] == BACKSLASH {
        ReadEscaped(s[1..], tail, k + 1, stay);
        if QuoteAhead(s[1..]) {
          ReadBackslash([BACKSLASH] + rest, true, 2 * k, stay);
          ReadBackslash(rest, true, 2 * k + 1, stay);
        } else {
          ReadBackslash(rest, true, k, stay);
        }
      } else {
        ReadEscaped(s[1..], tail, 0, stay);
        if s[0] == QUOTE {
          ReadBackslash([QUOTE] + rest, true, 2 * k, stay);
          ReadLiteralQuote(rest, true, 2 * k + 1, stay);
        } else {
          ReadOrdinary(s[0], rest, k, stay);
        }
      }
    }
  }

  lemma {:induction false} EscapeNothing(s: Text)
    requires !Contains(s, {QUOTE, BACKSLASH})
    ensures Escape(s) == s
  {
    if s != [] {
      assert s[0] !in {QUOTE, BACKSLASH};
      assert forall i :: 0 <= i < |s[1..]| ==> s[1..][i] == s[i + 1];
      EscapeNothing(s[1..]);
    }
  }

  lemma ReadOpeningQuote(inner: Text, stay: bool)
    ensures ReadArg([QUOTE] + inner, false, 0, stay) == ReadArg(inner, true, 0, stay)
  {
    assert ([QUOTE] + inner)[1..] == inner;
    var (a, rest) := ReadArg(inner, true, 0, stay);
    assert Backslashes(0) + a == a;
  }

  lemma QuotedShape(s: Text, tail: Text)
    requires s != [] && Contains(s, {SPACE, TAB, QUOTE})
    ensures Quote(s) != [] && Quote(s)[0] == QUOTE
    ensures Quote(s) + tail == [QUOTE] + Inside(s, tail)
  {
    if !Contains(s, {QUOTE, BACKSLASH}) {
      EscapeNothing(s);
    }
    hide Escape, QuoteAhead;
  }

  lemma ReadQuoted(s: Text, tail: Text, stay: bool)
    requires s != [] && EndsArg(tail)
    ensures Quote(s) != [] && !Blank(Quote(s)[0])
    ensures ReadArg(Quote(s) + tail, false, 0, stay) == (s, tail)
  {
    BackslashesAndText(0, s);
    assert Backslashes(0) + s == s;
    if !Contains(s, {SPACE, TAB, QUOTE}) {
      ReadPlain(s, tail, 0, stay);
      assert s[0] !in {SPACE, TAB, QUOTE};
    } else {
      QuotedShape(s, tail);
      ReadEscaped(s, tail, 0, stay);
      ReadOpeningQuote(Inside(s, tail), stay);
    }
  }

  function NonEmpty(args: seq<Text>): seq<Text> {
    if args == [] then [] else (if args[0] == [] then [] else [args[0]]) + NonEmpty(args[1..])
  }

  /** Reading on after the first argument. */
  lemma ReadFirst(a: Text, tail: Text, stay: bool)
    requires EndsArg(tail)
    ensures ReadArgs(Quote(a) + tail, stay) == (if a == [] then [] else [a]) + ReadArgs(tail, stay)
  {
    if a == [] {
      assert Quote(a) + tail == tail;
    } else {
      ReadQuoted(a, tail, stay);
      assert (Quote(a) + tail)[0] == Quote(a)[0];
    }
  }

  /** What the new process receives: all arguments except the empty ones. */
  lemma {:induction false} LineReadBack(args: seq<Text>, stay: bool)
    ensures ReadArgs(Line(args, false), stay) == NonEmpty(args)
    decreases |args|
  {
    if |args| == 1 {
      ReadFirst(args[0], [], stay);
      assert Quote(args[0]) + [] == Quote(args[0]);
    } else if args != [] {
      LineReadBack(args[1..], stay);
      var tail := [SPACE] + Line(args[1..], false);
      ReadFirst(args[0], tail, stay);
      assert Line(args, false) == Quote(args[0]) + tail && tail[1..] == Line(args[1..], false);
    }
  }

  /** The arguments survive the round trip if and only if none of them is empty. */
  lemma RoundTripIffNoneEmpty(args: seq<Text>, stay: bool)
    ensures ReadArgs(Line(args, false), stay) == args <==> [] !in args
  {
    LineReadBack(args, stay);
    NonEmptyKeepsAll(args);
  }

  lemma {:induction false} NonEmptyKeepsAll(args: seq<Text>)
    ensures |NonEmpty(args)| <= |args|
    ensures NonEmpty(args) == args <==> [] !in args
  {
    if args != [] {
      NonEmptyKeepsAll(args[1..]);
      if args[0] != [] && NonEmpty(args) == args {
        assert NonEmpty(args[1..]) == NonEmpty(args)[1..] == args[1..];
      }
      assert args == [args[0]] + args[1..];
    }
  }

  /** An empty argument is lost. */
  lemma EmptyArgumentIsLost(stay: bool)
    ensures ReadArgs(Line([[97], [], [98]], false), stay) == [[97], [98]]
  {
    var args: seq<Text> := [[97], [], [98]];
    LineReadBack(args, stay);
    assert args[1..] == [[], [98]] && args[1..][1..] == [[98]] && args[1..][1..][1..] == [];
  }

  // ---- which form is taken ----

  lemma {:induction false} QuoteAheadMeans(s: Text)
    requires QuoteAhead(s)
    ensures s == [] || QUOTE in s || s[|s| - 1] == BACKSLASH
  {
    if s != [] && s[0] == BACKSLASH { QuoteAheadMeans(s[1..]); }
  }

  /** Nothing is escaped if and only if there is no quote, and no backslash at the end. */
  lemma {:induction false} EscapesNothingIff(s: Text)
    ensures |s| <= |Escape(s)|
    ensures Escape(s) == s <==> QUOTE !in s && (s == [] || s[|s| - 1] != BACKSLASH)
    ensures Escape(s) == s <==> |Escape(s)| == |s|
  {
    if s != [] {
      var r := s[1..];
      assert s == [s[0]] + r;
      EscapesNothingIff(r);
      if s[0] == BACKSLASH && QuoteAhead(r) {
        QuoteAheadMeans(r);
      } else if s[0] != QUOTE {
        assert r == [] ==> s[|s| - 1] != BACKSLASH;
        assert Escape(s) == [s[0]] + Escape(r);
      }
    }
  }

  /** An argument is written as it is if and only if it has no blank and no quote. */
  lemma PlainIff(s: Text)
    ensures Quote(s) == s <==> forall i | 0 <= i < |s| :: s[i] != SPACE && s[i] != TAB && s[i] != QUOTE
  {
    EscapesNothingIff(s);
    if Contains(s, {SPACE, TAB, QUOTE}) {
      assert |Quote(s)| > |s|;
    }
  }

  /** It is just wrapped in quotes if and only if it has a blank, but no quote, and no backslash at the
      end; otherwise backslashes are added as well. */
  lemma WrappedIff(s: Text)
    ensures Quote(s) == [QUOTE] + s + [QUOTE] <==>
      (exists i :: 0 <= i < |s| && Blank(s[i])) && QUOTE !in s && s[|s| - 1] != BACKSLASH
    ensures !(forall i | 0 <= i < |s| :: s[i] != SPACE && s[i] != TAB && s[i] != QUOTE) ==>
      Quote(s) == [QUOTE] + Escape(s) + [QUOTE]
  {
    EscapesNothingIff(s);
    var w := [QUOTE] + s + [QUOTE];
    if s != [] && Contains(s, {SPACE, TAB, QUOTE}) {
      if !Contains(s, {QUOTE, BACKSLASH}) {
        EscapeNothing(s);
        assert s[|s| - 1] !in {QUOTE, BACKSLASH};
        forall c | c in s ensures c != QUOTE { assert c !in {QUOTE, BACKSLASH}; }
        var i :| 0 <= i < |s| && s[i] in {SPACE, TAB, QUOTE};
        assert s[i] !in {QUOTE, BACKSLASH};
        assert Blank(s[i]);
      } else if Quote(s) == w {
        assert |Escape(s)| == |s|;
        var i :| 0 <= i < |s| && s[i] in {SPACE, TAB, QUOTE};
        assert Blank(s[i]);
      }
    } else {
      assert Quote(s) == s && |w| == |s| + 2;
      assert forall i | 0 <= i < |s| :: Blank(s[i]) ==> s[i] in {SPACE, TAB, QUOTE};
    }
  }

  // ---- the line as it is ----

  /** The parts of a line between its spaces. */
  function Split(line: Text): (r: seq<Text>)
    ensures r != []
  {
    if line == [] then [[]] else
    var r := Split(line[1..]);
    if line[0] == SPACE then [[]] + r else [[line[0]] + r[0]] + r[1..]
  }

  lemma {:induction false} SplitFirst(a: Text, tail: Text)
    requires SPACE !in a
    ensures Split(a) == [a] && Split(a + [SPACE] + tail) == [a] + Split(tail)
  {
    if a == [] {
      assert a + [SPACE] + tail == [SPACE] + tail && ([SPACE] + tail)[1..] == tail;
    } else {
      SplitFirst(a[1..], tail);
      assert (a + [SPACE] + tail)[1..] == a[1..] + [SPACE] + tail;
      assert [a[0]] + a[1..] == a;
    }
  }

  lemma {:induction false} PartsHaveNoSpace(line: Text)
    ensures forall i | 0 <= i < |Split(line)| :: SPACE !in Split(line)[i]
  {
    if line != [] { PartsHaveNoSpace(line[1..]); }
  }

  /** With UV_PROCESS_WINDOWS_VERBATIM_ARGUMENTS the line is the arguments with a space between each two:
      its parts are the arguments if and only if there are any and none has a space. */
  lemma {:induction false} VerbatimSplitsIff(args: seq<Text>)
    ensures Split(Line(args, true)) == args <==> args != [] && forall i | 0 <= i < |args| :: SPACE !in args[i]
  {
    PartsHaveNoSpace(Line(args, true));
    if args != [] && forall i | 0 <= i < |args| :: SPACE !in args[i] {
      VerbatimSplits(args);
    }
  }

  lemma {:induction false} VerbatimSplits(args: seq<Text>)
    requires args != [] && forall i | 0 <= i < |args| :: SPACE !in args[i]
    ensures Split(Line(args, true)) == args
    decreases |args|
  {
    if |args| == 1 {
      SplitFirst(args[0], []);
    } else {
      VerbatimSplits(args[1..]);
      SplitFirst(args[0], Line(args[1..], true));
    }
  }

  // ---- the program ----

  function Reverse(s: Text): Text {
    if s == [] then [] else Reverse(s[1..]) + [s[0]]
  }

  lemma {:induction false} ReverseAt(s: Text, k: nat)
    requires k < |s|
    ensures |Reverse(s)| == |s| && Reverse(s)[k] == s[|s| - 1 - k]
  {
    if |s| > 1 {
      ReverseAt(s[1..], if k < |s| - 1 then k else 0);
    }
  }

  lemma {:induction false} ReverseLength(s: Text)
    ensures |Reverse(s)| == |s|
  {
    if s != [] {
      ReverseLength(s[1..]);
    }
  }

  lemma ReverseTwice(s: Text)
    ensures Reverse(Reverse(s)) == s
  {
    ReverseLength(s);
    ReverseLength(Reverse(s));
    forall k | 0 <= k < |s| ensures Reverse(Reverse(s))[k] == s[k] {
      ReverseAt(Reverse(s), k);
      ReverseAt(s, |s| - 1 - k);
    }
  }

  lemma {:induction false} EscapeBounds(s: Text)
    ensures |s| <= |Escape(s)| <= 2 * |s|
    ensures NUL !in s ==> NUL !in Escape(s)
  {
    if s != [] {
      EscapeBounds(s[1..]);
      assert NUL !in s ==> s[0] != NUL && NUL !in s[1..];
    }
  }

  lemma QuoteBounds(s: Text)
    ensures |Quote(s)| <= 2 * |s| + 2
    ensures NUL !in s ==> NUL !in Quote(s)
  {
    EscapeBounds(s);
  }

  /** wcsncpy of a whole text. */
  method Copy(source: Text, target: array<WChar>, at: nat)
    requires at + |source| <= target.Length
    modifies target
    ensures target[..at + |source|] == old(target[..at]) + source
  {
    forall i | 0 <= i < |source| {
      target[at + i] := source[i];
    }
  }

  /** wcsrev: reverse the text that starts at `start` and is ended by a NUL. */
  method ReverseInPlace(a: array<WChar>, start: nat, ghost n: nat)
    requires start + n < a.Length && a[start + n] == NUL && NUL !in a[start..start + n]
    modifies a
    ensures a[..start + n] == old(a[..start]) + Reverse(old(a[start..start + n]))
  {
    ghost var text := a[start..start + n];
    var len := TextLength(a, start, n);
    SwapEnds(a, start, len);
    ReverseLength(text);
    forall j | start <= j < start + n ensures a[j] == Reverse(text)[j - start] {
      ReverseAt(text, j - start);
    }
    assert a[start..start + n] == Reverse(text);
    assert a[..start + n] == a[..start] + a[start..start + n];
  }

  method SwapEnds(a: array<WChar>, start: nat, len: nat)
    requires start + len <= a.Length
    modifies a
    ensures a[..start] == old(a[..start])
    ensures forall j :: start <= j < start + len ==> a[j] == old(a[start + start + len - 1 - j])
  {
    var i := 0;
    while i < len / 2
      invariant 0 <= i <= len / 2
      invariant forall j :: start <= j < start + i || start + len - i <= j < start + len ==>
        a[j] == old(a[start + start + len - 1 - j])
      invariant forall j :: 0 <= j < start || start + i <= j < start + len - i ==> a[j] == old(a[j])
    {
      a[start + i], a[start + len - 1 - i] := a[start + len - 1 - i], a[start + i];
      i := i + 1;
    }
  }

  /** wcslen. */
  method TextLength(a: array<WChar>, start: nat, ghost n: nat) returns (len: nat)
    requires start + n < a.Length && a[start + n] == NUL && NUL !in a[start..start + n]
    ensures len == n
  {
    len := 0;
    while a[start + len] != NUL
      invariant 0 <= len <= n
      decreases n - len
    {
      assert a[start..start + n][len] == a[start + len];
      len := len + 1;
    }
  }

  /** One turn of that loop: the character, and a backslash behind it if it must be escaped. */
  method WriteOne(c: WChar, hit: bool, target: array<WChar>, at: nat) returns (end: nat)
    requires at + 2 <= target.Length
    modifies target
    ensures end == at + if c == QUOTE || (hit && c == BACKSLASH) then 2 else 1
    ensures target[..end] == old(target[..at]) + if c == QUOTE || (hit && c == BACKSLASH) then [c, BACKSLASH] else [c]
  {
    target[at] := c;
    end := at + 1;
    if c == QUOTE || (hit && c == BACKSLASH) {
      target[end] := BACKSLASH;
      end := end + 1;
    }
  }

  /** The loop of quote_cmd_arg that writes the escaped text backwards. */
  method WriteReversed(source: Text, target: array<WChar>, start: nat) returns (end: nat)
    requires start + 2 * |source| <= target.Length
    modifies target
    ensures end == start + |Escape(source)| <= target.Length
    ensures target[..end] == old(target[..start]) + Reverse(Escape(source))
  {
    var quoteHit := true;
    var i := |source|;
    end := start;
    assert source[i..] == [];
    assert target[..start] == target[..start] + Reverse(Escape([]));
    hide Escape, Reverse;
    while i > 0
      invariant 0 <= i <= |source| && start <= end <= start + 2 * (|source| - i)
      invariant quoteHit == QuoteAhead(source[i..])
      invariant target[..end] == old(target[..start]) + Reverse(Escape(source[i..]))
    {
      ReverseEscapeStep(source[i - 1..]);
      assert source[i - 1..][1..] == source[i..];
      var c := source[i - 1];
      end := WriteOne(c, quoteHit, target, end);
      quoteHit := c == QUOTE || (quoteHit && c == BACKSLASH);
      i := i - 1;
    }
    assert source[0..] == source;
    ReverseLength(Escape(source));
  }

  lemma ReverseEscapeStep(s: Text)
    requires s != []
    ensures Reverse(Escape(s)) == Reverse(Escape(s[1..])) +
      if s[0] == QUOTE || (s[0] == BACKSLASH && QuoteAhead(s[1..])) then [s[0], BACKSLASH] else [s[0]]
  {
    var e := Escape(s);
    if s[0] == QUOTE || (s[0] == BACKSLASH && QuoteAhead(s[1..])) {
      assert e[1..] == [s[0]] + Escape(s[1..]) && e[1..][1..] == Escape(s[1..]);
    } else {
      assert e[1..] == Escape(s[1..]);
    }
  }

  /** The escaped text in its proper order: written backwards, ended by a NUL, reversed. */
  method WriteEscaped(source: Text, target: array<WChar>, start: nat) returns (end: nat)
    requires NUL !in source && start + 2 * |source| < target.Length
    modifies target
    ensures end == start + |Escape(source)| < target.Length
    ensures target[..end] == old(target[..start]) + Escape(source)
  {
    ghost var e := Escape(source);
    EscapeBounds(source);
    ReverseTwice(e);
    ReverseLength(e);
    NulInReverse(e);
    end := WriteReversed(source, target, start);
    target[end] := NUL;
    assert target[..start] == old(target[..start]) && target[start..start + |e|] == Reverse(e);
    ReverseInPlace(target, start, |e|);
  }

  /** quote_cmd_arg. */
  method QuoteCmdArg(source: Text, target: array<WChar>, at: nat) returns (end: nat)
    requires NUL !in source && at + 2 * |source| + 2 <= target.Length
    modifies target
    ensures end == at + |Quote(source)| <= target.Length
    ensures target[..end] == old(target[..at]) + Quote(source)
  {
    hide Escape, QuoteAhead;
    if |source| == 0 {
      return at;
    }
    if !Contains(source, {SPACE, TAB, QUOTE}) {
      Copy(source, target, at);
      return at + |source|;
    }
    if !Contains(source, {QUOTE, BACKSLASH}) {
      target[at] := QUOTE;
      Copy(source, target, at + 1);
      target[at + 1 + |source|] := QUOTE;
      assert target[..at + |source| + 2] == old(target[..at]) + ([QUOTE] + source + [QUOTE]);
      return at + |source| + 2;
    }
    end := WriteQuoted(source, target, at);
  }

  /** The escaped text in quotes. */
  method WriteQuoted(source: Text, target: array<WChar>, at: nat) returns (end: nat)
    requires NUL !in source && at + 2 * |source| + 2 <= target.Length
    modifies target
    ensures end == at + 2 + |Escape(source)| <= target.Length
    ensures target[..end] == old(target[..at]) + [QUOTE] + Escape(source) + [QUOTE]
  {
    hide Escape;
    target[at] := QUOTE;
    end := WriteEscaped(source, target, at + 1);
    target[end] := QUOTE;
    end := end + 1;
  }

  lemma {:induction false} NulInReverse(s: Text)
    ensures NUL in Reverse(s) <==> NUL in s
  {
    if s != [] {
      NulInReverse(s[1..]);
      assert s == [s[0]] + s[1..];
    }
  }

  function Size(args: seq<Text>): nat {
    if args == [] then 0 else |args[0]| + 1 + Size(args[1..])
  }

  lemma {:induction false} SizeAppend(args: seq<Text>, i: nat)
    requires i < |args|
    ensures Size(args[..i + 1]) == Size(args[..i]) + |args[i]| + 1
    ensures Size(args[i..]) == |args[i]| + 1 + Size(args[i + 1..])
    ensures Size(args) == Size(args[..i]) + Size(args[i..])
  {
    assert args[i..][1..] == args[i + 1..];
    if i == 0 {
      assert args[..1][1..] == [] && args[..0] == [] && args[0..] == args;
    } else {
      SizeAppend(args[1..], i - 1);
      assert args[..i + 1][1..] == args[1..][..i] && args[..i][1..] == args[1..][..i - 1];
      assert args[1..][i - 1..] == args[i..];
    }
  }

  /** make_program_args: the line and a final NUL, in a buffer of the size computed first. With
      no arguments at all the buffer is empty, and nothing ends the line. */
  method MakeProgramArgs(args: seq<Text>, verbatim: bool) returns (dst: array<WChar>)
    requires forall i :: 0 <= i < |args| ==> NUL !in args[i]
    ensures fresh(dst) && dst.Length == 2 * Size(args) + 2 * |args|
    ensures args != [] ==>
      |Line(args, verbatim)| < dst.Length && dst[..|Line(args, verbatim)| + 1] == Line(args, verbatim) + [NUL]
  {
    var dstLen := 0;
    assert args[..0] == [];
    for i := 0 to |args|
      invariant dstLen == Size(args[..i])
    {
      SizeAppend(args, i);
      dstLen := dstLen + |args[i]| + 1;
    }
    assert args[..|args|] == args;
    dstLen := dstLen * 2 + |args| * 2;
    dst := new WChar[dstLen];
    FillLine(args, verbatim, dst);
  }

  /** The second loop of make_program_args. */
  method FillLine(args: seq<Text>, verbatim: bool, dst: array<WChar>)
    requires forall i :: 0 <= i < |args| ==> NUL !in args[i]
    requires dst.Length == 2 * Size(args) + 2 * |args|
    modifies dst
    ensures args != [] ==>
      |Line(args, verbatim)| < dst.Length && dst[..|Line(args, verbatim)| + 1] == Line(args, verbatim) + [NUL]
  {
    var pos, i := 0, 0;
    assert args[0..] == args;
    ghost var line := Line(args, verbatim);
    while i < |args|
      invariant 0 <= i <= |args| && 0 <= pos <= dst.Length
      invariant dst.Length - pos >= 2 * Size(args[i..]) + 2 * (|args| - i)
      invariant i < |args| ==> dst[..pos] + Line(args[i..], verbatim) == line
      invariant i == |args| > 0 ==> dst[..pos] == line + [NUL]
    {
      SizeAppend(args, i);
      LineStep(args, i, verbatim, dst[..pos]);
      pos := WriteArg(args[i], verbatim, dst, pos, if i + 1 < |args| then SPACE else NUL);
      i := i + 1;
    }
  }

  function Piece(arg: Text, verbatim: bool): Text {
    if verbatim then arg else Quote(arg)
  }

  lemma LineStep(args: seq<Text>, i: nat, verbatim: bool, before: Text)
    requires i < |args|
    ensures var piece := Piece(args[i], verbatim);
      before + Line(args[i..], verbatim) ==
        if i + 1 < |args| then before + piece + [SPACE] + Line(args[i + 1..], verbatim) else before + piece
  {
    assert args[i..][1..] == args[i + 1..];
  }

  /** One argument and the character after it. */
  method WriteArg(arg: Text, verbatim: bool, dst: array<WChar>, at: nat, separator: WChar) returns (end: nat)
    requires NUL !in arg && at + 2 * |arg| + 4 <= dst.Length
    modifies dst
    ensures at < end <= at + 2 * |arg| + 3
    ensures dst[..end] == old(dst[..at]) + Piece(arg, verbatim) + [separator]
  {
    QuoteBounds(arg);
    if verbatim {
      Copy(arg, dst, at);
      end := at + |arg|;
    } else {
      end := QuoteCmdArg(arg, dst, at);
    }
    dst[end] := separator;
    end := end + 1;
    assert dst[..end] == dst[..end - 1] + [separator];
  }

  /** What a new process with non-empty arguments reads from the buffer. */
  method CommandLineArrives(args: seq<Text>, stay: bool) returns (received: seq<Text>)
    requires args != [] && forall i :: 0 <= i < |args| ==> NUL !in args[i]
    ensures received == NonEmpty(args)
  {
    var dst := MakeProgramArgs(args, false);
    LineHasNoNul(args);
    ghost var n := |Line(args, false)|;
    assert dst[0..n] == (Line(args, false) + [NUL])[..n] && dst[n] == (Line(args, false) + [NUL])[n];
    var len := TextLength(dst, 0, n);
    LineReadBack(args, stay);
    received := ReadArgs(dst[..len], stay);
  }

  lemma {:induction false} LineHasNoNul(args: seq<Text>)
    requires forall i :: 0 <= i < |args| ==> NUL !in args[i]
    ensures NUL !in Line(args, false)
  {
    if args != [] {
      QuoteBounds(args[0]);
      assert forall i :: 0 <= i < |args[1..]| ==> args[1..][i] == args[i + 1];
      LineHasNoNul(args[1..]);
    }
  }
}
