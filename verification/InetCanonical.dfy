/** The text that inet_ntop6 writes for an address: the canonical one of section 4 of RFC 5952. */
module InetCanonical {
  import opened Options
  import opened InetText

  // ---- hexadecimal numbers ----

  /** The conversion %x of a 16-bit word. */
  function HexText(w: word): string {
    if w < 16 then [Digit(w)] else HexText(w / 16) + [Digit(w % 16)]
  }

  lemma DigitValue(d: int)
    requires 0 <= d < 16
    ensures IsHex(Digit(d)) && HexValue(Digit(d)) == d
    ensures !('A' <= Digit(d) <= 'F') && (Digit(d) == '0' <==> d == 0)
  {
    assert forall i | 0 <= i < 10 :: "0123456789abcdef"[i] as int == '0' as int + i;
    assert forall i | 10 <= i < 16 :: "0123456789abcdef"[i] as int == 'a' as int + i - 10;
  }

  /** Sections 4.1 and 4.3 of RFC 5952: no leading zeros, lower case. */
  predicate Plain(s: string) {
    s != "" && (|s| == 1 || s[0] != '0') && forall i | 0 <= i < |s| :: !('A' <= s[i] <= 'F')
  }

  lemma MoreHex(s: string, c: char)
    requires Hexes(s) && |s| <= 3 && IsHex(c)
    ensures Hexes(s + [c]) && Number(s + [c]) == Number(s) * 16 + HexValue(c)
  {
    assert (s + [c])[..|s|] == s;
  }

  lemma {:induction false} HexTextReads(w: word)
    ensures 1 <= |HexText(w)| && (w < 16 ==> |HexText(w)| == 1)
    ensures w < 256 ==> |HexText(w)| <= 2
    ensures w < 4096 ==> |HexText(w)| <= 3
    ensures Hexes(HexText(w)) && Number(HexText(w)) == w
  {
    var d := w % 16;
    DigitValue(d);
    if w < 16 {
      MoreHex("", Digit(d));
      assert "" + [Digit(d)] == [Digit(d)];
    } else {
      HexTextReads(w / 16);
      MoreHex(HexText(w / 16), Digit(d));
    }
  }

  lemma {:induction false} HexTextPlain(w: word)
    ensures Plain(HexText(w)) && (0 < w ==> HexText(w)[0] != '0')
  {
    DigitValue(w % 16);
    if 16 <= w { HexTextPlain(w / 16); }
  }

  // ---- the run of zeros to leave out ----

  type words = ws: seq<word> | |ws| == 8 witness [0, 0, 0, 0, 0, 0, 0, 0]

  /** `base == -1`: no run. */
  datatype Run = Run(base: int, len: int)

  ghost predicate IsRun(ws: seq<word>, r: Run) {
    0 <= r.base && 0 < r.len && r.base + r.len <= |ws| && forall i | r.base <= i < r.base + r.len :: ws[i] == 0
  }

  ghost predicate Beats(r: Run, s: Run) {
    s.len < r.len || (s.len == r.len && r.base <= s.base)
  }

  /** Sections 4.2.1 to 4.2.3 of RFC 5952: of the runs of at least two zero groups the longest, of
      equally long ones the first. */
  ghost predicate IsBest(ws: seq<word>, r: Run) {
    if r.base == -1 then forall s | IsRun(ws, s) :: s.len < 2
    else IsRun(ws, r) && 2 <= r.len && forall s | IsRun(ws, s) :: Beats(r, s)
  }

  lemma BestIsUnique(ws: seq<word>, r: Run, s: Run)
    requires IsBest(ws, r) && IsBest(ws, s)
    ensures r.base == s.base && (r.base != -1 ==> r == s)
  {
    if r.base != -1 { assert IsRun(ws, r); }
    if s.base != -1 { assert IsRun(ws, s); }
    if r.base != -1 && s.base != -1 { assert Beats(r, s) && Beats(s, r); }
  }

  // ---- the form ----

  function Hexed(ws: seq<word>): (ps: seq<Piece>)
    ensures |ps| == |ws|
  {
    if ws == [] then [] else Hexed(ws[..|ws| - 1]) + [Hex(HexText(ws[|ws| - 1]))]
  }

  /** Section 5 of RFC 5952: the last four bytes are written as an IPv4 address if all before them
      is zero, or all but ffff right before them. */
  predicate EndsInQuad(ws: words, r: Run) {
    r.base == 0 && (r.len == 6 || (r.len == 5 && ws[5] == 0xffff))
  }

  function LastBytes(ws: words): (q: seq<byte>)
    ensures |q| == 4
  {
    WordBytes(ws[6]) + WordBytes(ws[7])
  }

  function FormOf(ws: words, r: Run): Form
    requires r.base == -1 || (0 <= r.base && 0 <= r.len && r.base + r.len <= 8)
  {
    if r.base == -1 then Form(Hexed(ws), false, [])
    else if EndsInQuad(ws, r) then Form([], true, Hexed(ws[r.len..6]) + [Quad(LastBytes(ws))])
    else Form(Hexed(ws[..r.base]), true, Hexed(ws[r.base + r.len..]))
  }

  function WordsBytes(ws: seq<word>): (b: seq<byte>)
    ensures |b| == 2 * |ws|
  {
    if ws == [] then [] else WordsBytes(ws[..|ws| - 1]) + WordBytes(ws[|ws| - 1])
  }

  function Words(a: seq<byte>): words
    requires |a| == 16
  {
    seq(8, i requires 0 <= i < 8 => var high: int := a[2 * i]; high * 256 + a[2 * i + 1])
  }

  lemma {:induction false} BytesOfWords(a: seq<byte>, n: nat)
    requires |a| == 16 && n <= 8
    ensures WordsBytes(Words(a)[..n]) == a[..2 * n]
  {
    if 0 < n {
      BytesOfWords(a, n - 1);
      assert Words(a)[..n][..n - 1] == Words(a)[..n - 1];
      assert WordBytes(Words(a)[n - 1]) == [a[2 * n - 2], a[2 * n - 1]];
    }
  }

  lemma {:induction false} WordsBytesSplit(u: seq<word>, v: seq<word>)
    ensures WordsBytes(u + v) == WordsBytes(u) + WordsBytes(v)
  {
    if v == [] {
      assert u + v == u;
    } else {
      var w := v[..|v| - 1];
      WordsBytesSplit(u, w);
      assert (u + v)[..|u + v| - 1] == u + w;
      Assoc(WordsBytes(u), WordsBytes(w), WordBytes(v[|v| - 1]));
    }
  }

  lemma {:induction false} ZeroBytes(ws: seq<word>)
    requires forall i | 0 <= i < |ws| :: ws[i] == 0
    ensures WordsBytes(ws) == Zeros(2 * |ws|)
  {
    if ws != [] { ZeroBytes(ws[..|ws| - 1]); }
  }

  // ---- joining at the end ----

  lemma {:induction false} JoinMore(ps: seq<Piece>, p: Piece)
    requires ps != []
    ensures Join(ps + [p]) == Join(ps) + (":" + PieceText(p))
  {
    if |ps| == 1 {
      assert (ps + [p])[1..] == [p];
      Assoc(PieceText(ps[0]), ":", PieceText(p));
    } else {
      assert (ps + [p])[1..] == ps[1..] + [p];
      JoinMore(ps[1..], p);
      Assoc(PieceText(ps[0]) + ":", Join(ps[1..]), ":" + PieceText(p));
    }
  }

  lemma {:induction false} BytesMore(ps: seq<Piece>, p: Piece)
    requires AllHex(ps) && IsPiece(p)
    ensures Pieces(ps) && Pieces(ps + [p]) && Bytes(ps + [p]) == Bytes(ps) + PieceBytes(p)
    ensures p.Hex? ==> AllHex(ps + [p])
  {
    if ps == [] {
      OnePiece(p);
      assert ps + [p] == [p];
    } else {
      assert (ps + [p])[1..] == ps[1..] + [p];
      BytesMore(ps[1..], p);
      Assoc(PieceBytes(ps[0]), Bytes(ps[1..]), PieceBytes(p));
    }
  }

  lemma {:induction false} HexedBytes(ws: seq<word>)
    ensures AllHex(Hexed(ws)) && Pieces(Hexed(ws)) && Bytes(Hexed(ws)) == WordsBytes(ws)
  {
    if ws != [] {
      var n := |ws| - 1;
      HexedBytes(ws[..n]);
      HexTextReads(ws[n]);
      BytesMore(Hexed(ws[..n]), Hex(HexText(ws[n])));
    }
  }

  // ---- the form is one of the address ----

  lemma QuadTail(ws: words, n: nat)
    requires n <= 6
    ensures Pieces(Hexed(ws[n..6]) + [Quad(LastBytes(ws))])
    ensures Bytes(Hexed(ws[n..6]) + [Quad(LastBytes(ws))]) == WordsBytes(ws[n..])
  {
    var m, e := ws[n..6], ws[6..];
    HexedBytes(m);
    BytesMore(Hexed(m), Quad(LastBytes(ws)));
    assert ws[n..] == m + e;
    WordsBytesSplit(m, e);
    assert e == [ws[6]] + [ws[7]];
    WordsBytesSplit([ws[6]], [ws[7]]);
  }

  lemma TailBytes(ws: words, r: Run)
    requires IsRun(ws, r)
    ensures Shaped(FormOf(ws, r)) && FormOf(ws, r).gap
    ensures Bytes(FormOf(ws, r).head) == WordsBytes(ws[..r.base])
    ensures Bytes(FormOf(ws, r).tail) == WordsBytes(ws[r.base + r.len..])
  {
    HexedBytes(ws[..r.base]);
    if EndsInQuad(ws, r) {
      QuadTail(ws, r.len);
      assert ws[..0] == [];
    } else {
      HexedBytes(ws[r.base + r.len..]);
    }
  }

  lemma GapIsZeros(ws: words, r: Run)
    requires IsRun(ws, r)
    ensures WordsBytes(ws) == WordsBytes(ws[..r.base]) + Zeros(2 * r.len) + WordsBytes(ws[r.base + r.len..])
  {
    var u, v := ws[..r.base + r.len], ws[r.base + r.len..];
    assert ws == u + v;
    WordsBytesSplit(u, v);
    assert u == u[..r.base] + u[r.base..] && u[..r.base] == ws[..r.base];
    WordsBytesSplit(u[..r.base], u[r.base..]);
    ZeroBytes(u[r.base..]);
  }

  lemma GapValue(f: Form, u: seq<byte>, v: seq<byte>, n: nat)
    requires Shaped(f) && f.gap && Bytes(f.head) == u && Bytes(f.tail) == v
    requires |u| + |v| + n == 16 && 0 < n
    ensures IsForm(f) && Value(f) == u + Zeros(n) + v
  {
  }

  /** The form of the best run, and of any other run, stands for the address. */
  lemma FormMeansAddress(a: seq<byte>, r: Run)
    requires |a| == 16 && (r.base == -1 || IsRun(Words(a), r))
    ensures IsForm(FormOf(Words(a), r)) && Value(FormOf(Words(a), r)) == a
  {
    var ws := Words(a);
    assert WordsBytes(ws) == a by {
      BytesOfWords(a, 8);
      assert ws[..8] == ws && a[..16] == a;
    }
    if r.base == -1 {
      HexedBytes(ws);
      assert a + [] == a;
    } else {
      TailBytes(ws, r);
      GapIsZeros(ws, r);
      GapValue(FormOf(ws, r), WordsBytes(ws[..r.base]), WordsBytes(ws[r.base + r.len..]), 2 * r.len);
    }
  }

  /** The text of an address that leaves out the best run. */
  ghost predicate Canonical(s: string, a: seq<byte>)
    requires |a| == 16
  {
    exists r: Run :: IsBest(Words(a), r) && s == Show(FormOf(Words(a), r))
  }

  /** Reading the canonical text gives the address back. */
  lemma CanonicalParses(s: string, a: seq<byte>)
    requires |a| == 16 && Canonical(s, a)
    ensures Parse(s) == Some(a)
  {
    var r: Run :| IsBest(Words(a), r) && s == Show(FormOf(Words(a), r));
    FormMeansAddress(a, r);
    ParseComplete(FormOf(Words(a), r));
  }

  /** An address has one canonical text, and a text is canonical for one address. */
  lemma CanonicalIsUnique(s: string, a: seq<byte>, t: string, b: seq<byte>)
    requires |a| == 16 && |b| == 16 && Canonical(s, a) && Canonical(t, b)
    ensures s == t <==> a == b
  {
    if s == t {
      CanonicalParses(s, a);
      CanonicalParses(t, b);
    }
    if a == b {
      var q: Run :| IsBest(Words(a), q) && s == Show(FormOf(Words(a), q));
      var r: Run :| IsBest(Words(b), r) && t == Show(FormOf(Words(b), r));
      BestIsUnique(Words(a), q, r);
    }
  }

  /** Sections 4.1 and 4.3 of RFC 5952: every group is written in lower case without leading zeros. */
  lemma GroupsArePlain(ws: words, r: Run)
    requires r.base == -1 || IsRun(ws, r)
    ensures forall p | p in FormOf(ws, r).head + FormOf(ws, r).tail :: p.Hex? ==> Plain(p.digits)
  {
    var f := FormOf(ws, r);
    forall p | p in f.head + f.tail ensures p.Hex? ==> Plain(p.digits) {
      if p.Hex? {
        if p in f.head {
          HexedArePlain(if r.base == -1 then ws else ws[..r.base], p);
        } else if EndsInQuad(ws, r) {
          HexedArePlain(ws[r.len..6], p);
        } else {
          HexedArePlain(ws[r.base + r.len..], p);
        }
      }
    }
  }

  lemma {:induction false} HexedArePlain(ws: seq<word>, p: Piece)
    requires p in Hexed(ws)
    ensures p.Hex? && Plain(p.digits)
  {
    var n := |ws| - 1;
    if p in Hexed(ws[..n]) {
      HexedArePlain(ws[..n], p);
    } else {
      HexTextPlain(ws[n]);
    }
  }

  // ---- the text, from left to right ----

  /** The pieces `lo` to `hi`, joined. */
  function Groups(ws: seq<word>, lo: nat, hi: nat): string
    requires lo <= hi <= |ws|
  {
    Join(Hexed(ws[lo..hi]))
  }

  /** The text before word `i`. */
  function Prefix(ws: words, r: Run, i: nat): string
    requires i <= 8 && (r.base == -1 || IsRun(ws, r))
  {
    if r.base == -1 || i <= r.base then Groups(ws, 0, i)
    else if i <= r.base + r.len then Groups(ws, 0, r.base) + ":"
    else Groups(ws, 0, r.base) + "::" + Groups(ws, r.base + r.len, i)
  }

  lemma GroupsMore(ws: seq<word>, lo: nat, i: nat)
    requires lo <= i < |ws|
    ensures Groups(ws, lo, i + 1) == (if lo < i then Groups(ws, lo, i) + (":" + HexText(ws[i])) else HexText(ws[i]))
  {
    assert ws[lo..i + 1][..i - lo] == ws[lo..i];
    assert Hexed(ws[lo..i + 1]) == Hexed(ws[lo..i]) + [Hex(HexText(ws[i]))];
    if lo < i { JoinMore(Hexed(ws[lo..i]), Hex(HexText(ws[i]))); }
  }

  lemma PrefixRun(ws: words, r: Run, i: nat)
    requires IsRun(ws, r) && r.base <= i < r.base + r.len
    ensures Prefix(ws, r, i + 1) == Prefix(ws, r, i) + (if i == r.base then ":" else "")
  {
    hide Join, Hexed, HexText;
    if i != r.base { assert Prefix(ws, r, i) + "" == Prefix(ws, r, i); }
  }

  lemma PrefixStart(ws: words, r: Run)
    requires r.base == -1 || IsRun(ws, r)
    ensures Prefix(ws, r, 0) == ""
  {
    assert ws[0..0] == [];
  }

  lemma PrefixBefore(ws: words, r: Run, i: nat)
    requires i < 8 && (r.base == -1 || (IsRun(ws, r) && i < r.base))
    ensures Prefix(ws, r, i + 1) == Prefix(ws, r, i) + (if i != 0 then ":" else "") + HexText(ws[i])
  {
    GroupsMore(ws, 0, i);
    if i != 0 { Assoc(Groups(ws, 0, i), ":", HexText(ws[i])); }
  }

  lemma FirstAfter(u: string, h: string)
    ensures u + "::" + h == u + ":" + ":" + h
  {
    Assoc(u, ":", ":");
    assert ":" + ":" == "::";
  }

  lemma LaterAfter(u: string, v: string, h: string)
    ensures u + (v + (":" + h)) == u + v + ":" + h
  {
    Assoc(u, v, ":" + h);
    Assoc(u + v, ":", h);
  }

  lemma PrefixFirstAfter(ws: words, r: Run, i: nat)
    requires i < 8 && IsRun(ws, r) && r.base + r.len == i
    ensures Prefix(ws, r, i + 1) == Prefix(ws, r, i) + ":" + HexText(ws[i])
  {
    hide Join, Hexed, HexText;
    GroupsMore(ws, i, i);
    FirstAfter(Groups(ws, 0, r.base), HexText(ws[i]));
  }

  lemma PrefixLaterAfter(ws: words, r: Run, i: nat)
    requires i < 8 && IsRun(ws, r) && r.base + r.len < i
    ensures Prefix(ws, r, i + 1) == Prefix(ws, r, i) + ":" + HexText(ws[i])
  {
    hide Join, Hexed, HexText;
    GroupsMore(ws, r.base + r.len, i);
    LaterAfter(Groups(ws, 0, r.base) + "::", Groups(ws, r.base + r.len, i), HexText(ws[i]));
  }

  lemma PrefixGroup(ws: words, r: Run, i: nat)
    requires i < 8 && (r.base == -1 || (IsRun(ws, r) && !(r.base <= i < r.base + r.len)))
    ensures Prefix(ws, r, i + 1) == Prefix(ws, r, i) + (if i != 0 then ":" else "") + HexText(ws[i])
  {
    if r.base == -1 || i < r.base {
      PrefixBefore(ws, r, i);
    } else {
      if r.base + r.len == i { PrefixFirstAfter(ws, r, i); } else { PrefixLaterAfter(ws, r, i); }
    }
  }

  lemma PrefixEnd(ws: words, r: Run)
    requires (r.base == -1 || IsRun(ws, r)) && !EndsInQuad(ws, r)
    ensures Show(FormOf(ws, r)) == Prefix(ws, r, 8) + (if r.base != -1 && r.base + r.len == 8 then ":" else "")
  {
    assert ws[0..8] == ws;
    if r.base != -1 {
      assert ws[r.base + r.len..8] == ws[r.base + r.len..];
      assert ws[0..r.base] == ws[..r.base];
      if r.base + r.len == 8 { FirstAfter(Groups(ws, 0, r.base), ""); }
    }
  }

  lemma PrefixQuad(ws: words, r: Run)
    requires IsRun(ws, r) && EndsInQuad(ws, r)
    ensures Show(FormOf(ws, r)) == Prefix(ws, r, 6) + ":" + ShowQuad(LastBytes(ws))
  {
    hide ShowQuad, LastBytes, IsRun, Hexed;
    var q := Quad(LastBytes(ws));
    assert ws[0..0] == [];
    if r.len == 6 {
      assert ws[6..6] == [] && [] + [q] == [q];
      FirstAfter("", PieceText(q));
    } else {
      JoinMore(Hexed(ws[5..6]), q);
      LaterAfter("" + "::", Groups(ws, 5, 6), PieceText(q));
    }
  }

  lemma {:induction false} GroupsBound(ws: seq<word>, lo: nat, hi: nat)
    requires lo <= hi <= |ws|
    ensures |Groups(ws, lo, hi)| <= 5 * (hi - lo)
    decreases hi
  {
    if lo == hi {
      assert ws[lo..hi] == [];
    } else {
      hide Join, Hexed, HexText;
      GroupsBound(ws, lo, hi - 1);
      GroupsMore(ws, lo, hi - 1);
      HexTextReads(ws[hi - 1]);
    }
  }

  lemma PrefixBound(ws: words, r: Run, i: nat)
    requires i <= 8 && (r.base == -1 || IsRun(ws, r))
    ensures |Prefix(ws, r, i)| <= 5 * i + 2 && (r.base == -1 || i <= r.base ==> |Prefix(ws, r, i)| <= 5 * i)
    ensures r.base != -1 && r.base + r.len <= i ==> |Prefix(ws, r, i)| <= 5 * (i - r.len) + 2
  {
    hide Join, Hexed, HexText;
    if r.base == -1 || i <= r.base {
      GroupsBound(ws, 0, i);
    } else {
      GroupsBound(ws, 0, r.base);
      if r.base + r.len < i { GroupsBound(ws, r.base + r.len, i); }
    }
  }

  lemma QuadBound(q: seq<byte>)
    requires |q| == 4
    ensures 1 <= |ShowQuad(q)| <= 15
  {
    DecimalDigits(q[0]);
    DecimalDigits(q[1]);
    DecimalDigits(q[2]);
    DecimalDigits(q[3]);
    assert q[1..][1..] == q[2..] && q[2..][1..] == q[3..];
    assert |ShowQuad(q[3..])| <= 3;
    assert |ShowQuad(q[2..])| <= 7;
  }
}
