/** The conversions of libuv/src/inet.c, working in place on their buffers. */
module Inet {
  import opened Options
  import opened InetText
  import opened InetCanonical

  /** Writes `text` into the buffer from `at` on, as sprintf does without the NUL. */
  method Put(dst: array<char>, at: nat, text: string) returns (end: nat)
    requires at + |text| <= dst.Length
    modifies dst
    ensures end == at + |text|
    ensures dst[..end] == old(dst[..at]) + text
    ensures dst[end..] == old(dst[at + |text|..])
  {
    var i := 0;
    while i < |text|
      invariant 0 <= i <= |text|
      invariant dst[..at + i] == old(dst[..at]) + text[..i]
      invariant dst[at + |text|..] == old(dst[at + |text|..])
    {
      dst[at + i] := text[i];
      i := i + 1;
    }
    end := at + |text|;
  }

  /** inet_ntop4: writes the four decimal octets if they fit with a NUL behind them, and fills the
      buffer with NULs. */
  method Ntop4(src: seq<byte>, dst: array<char>, at: nat, size: nat) returns (ok: bool)
    requires |src| == 4 && at + size <= dst.Length
    modifies dst
    ensures ok <==> |ShowQuad(src)| < size
    ensures ok ==> dst[..at + |ShowQuad(src)|] == old(dst[..at]) + ShowQuad(src)
    ensures ok ==> forall i | at + |ShowQuad(src)| <= i < at + size :: dst[i] == '\0'
    ensures dst[at + size..] == old(dst[at + size..])
    ensures !ok ==> dst[..] == old(dst[..])
  {
    var tmp := ShowQuad(src);
    var l := |tmp|;
    QuadBound(src);
    if l <= 0 || l >= size {
      return false;
    }
    var i := Put(dst, at, tmp);
    while i < at + size
      invariant at + l <= i <= at + size
      invariant dst[..at + l] == old(dst[..at]) + tmp
      invariant forall j | at + l <= j < i :: dst[j] == '\0'
      invariant dst[at + size..] == old(dst[at + size..])
    {
      dst[i] := '\0';
      i := i + 1;
    }
    dst[at + size - 1] := '\0';
    ok := true;
  }

  // ---- the run of zeros ----

  /** The best run among those that end at `n` or before. */
  ghost predicate BestUpTo(ws: seq<word>, best: Run, n: int) {
    && (best.base == -1 || (IsRun(ws, best) && best.base + best.len <= n))
    && forall s | IsRun(ws, s) && s.base + s.len <= n :: best.base != -1 && Beats(best, s)
  }

  /** The run that reaches up to `i`; there is none if `base` is -1. */
  ghost predicate Reaches(ws: seq<word>, cur: Run, i: int)
    requires 0 <= i <= |ws|
  {
    if cur.base == -1 then i == 0 || ws[i - 1] != 0
    else IsRun(ws, cur) && cur.base + cur.len == i && (cur.base == 0 || ws[cur.base - 1] != 0)
  }

  lemma BestCloses(ws: seq<word>, best: Run, cur: Run, i: int)
    requires 0 <= i <= |ws| && Reaches(ws, cur, i) && cur.base != -1
    requires BestUpTo(ws, best, cur.base)
    ensures BestUpTo(ws, if best.base == -1 || cur.len > best.len then cur else best, i)
  {
    var b := if best.base == -1 || cur.len > best.len then cur else best;
    forall s | IsRun(ws, s) && s.base + s.len <= i ensures Beats(b, s) {
      if cur.base < s.base + s.len && s.base < cur.base {
        assert false;
      }
    }
  }

  lemma BestPasses(ws: seq<word>, best: Run, i: int)
    requires 0 <= i < |ws| && ws[i] != 0 && BestUpTo(ws, best, i)
    ensures BestUpTo(ws, best, i + 1)
  {
    forall s | IsRun(ws, s) && s.base + s.len <= i + 1 ensures best.base != -1 && Beats(best, s) {
      if s.base + s.len == i + 1 {
        assert false;
      }
    }
  }

  /** The loop that looks for the longest run of zeros. */
  method FindBest(ws: seq<word>) returns (best: Run)
    ensures IsBest(ws, best)
  {
    best := Run(-1, 0);
    var cur := Run(-1, 0);
    var i := 0;
    while i < |ws|
      invariant 0 <= i <= |ws|
      invariant Reaches(ws, cur, i)
      invariant BestUpTo(ws, best, if cur.base == -1 then i else cur.base)
    {
      if ws[i] == 0 {
        if cur.base == -1 {
          cur := Run(i, 1);
        } else {
          cur := cur.(len := cur.len + 1);
        }
      } else {
        if cur.base != -1 {
          BestCloses(ws, best, cur, i);
          if best.base == -1 || cur.len > best.len { best := cur; }
          cur := cur.(base := -1);
        }
        BestPasses(ws, best, i);
      }
      i := i + 1;
    }
    if cur.base != -1 {
      BestCloses(ws, best, cur, i);
      if best.base == -1 || cur.len > best.len { best := cur; }
    }
    if best.base != -1 && best.len < 2 { best := best.(base := -1); }
  }

  /** The loop that joins the bytes to words. */
  method ReadWords(src: seq<byte>) returns (ws: words)
    requires |src| == 16
    ensures ws == Words(src)
  {
    var a := new int[8](_ => 0);
    var i := 0;
    while i < 16
      invariant 0 <= i <= 16
      invariant forall j | 0 <= j < i / 2 :: a[j] == Words(src)[j]
      invariant forall j | i / 2 <= j < 8 :: a[j] == if j == i / 2 && i % 2 == 1 then 256 * (src[i - 1] as int) else 0
    {
      // the two halves of a word have no bit in common: adding is "or"
      var high: int := src[i];
      a[i / 2] := a[i / 2] + if i % 2 == 0 then 256 * high else high;
      i := i + 1;
    }
    ws := a[..];
  }

  /** The test for an encapsulated IPv4 address. A run of length 7 is never met: word 6 lies in it. */
  predicate Encapsulates(ws: words, best: Run) {
    && best.base == 0
    && (best.len == 6 || (best.len == 7 && ws[7] != 1) || (best.len == 5 && ws[5] == 0xffff))
  }

  /** The loop that writes the words, into a buffer that always suffices. */
  method WriteWords(src: seq<byte>, ws: words, best: Run, tmp: array<char>) returns (tp: nat)
    requires |src| == 16 && ws == Words(src) && IsBest(ws, best)
    requires tmp.Length == 46
    modifies tmp
    ensures tp < 46 && tmp[..tp] == Show(FormOf(ws, best))
  {
    hide Join, Hexed, HexText, ShowQuad, Words, Prefix, FormOf, Show, LastBytes;
    tp := 0;
    var i := 0;
    PrefixStart(ws, best);
    while i < 8
      invariant 0 <= i <= 8
      invariant tp <= 46 && tmp[..tp] == Prefix(ws, best, i)
      invariant i <= 6 || !EndsInQuad(ws, best)
    {
      PrefixBound(ws, best, i);
      if best.base != -1 && i >= best.base && i < best.base + best.len {
        PrefixRun(ws, best, i);
        if i == best.base {
          tp := Put(tmp, tp, ":");
        }
        i := i + 1;
        continue;
      }
      if i != 0 {
        tp := Put(tmp, tp, ":");
      }
      if i == 6 && Encapsulates(ws, best) {
        QuadBound(src[12..]);
        PrefixQuad(ws, best);
        LastBytesOf(src);
        var ok := Ntop4(src[12..], tmp, tp, 46 - tp);
        tp := tp + |ShowQuad(src[12..])|;
        return;
      }
      HexTextReads(ws[i]);
      PrefixGroup(ws, best, i);
      tp := Put(tmp, tp, HexText(ws[i]));
      i := i + 1;
    }
    PrefixBound(ws, best, 8);
    PrefixEnd(ws, best);
    if best.base != -1 && best.base + best.len == 8 {
      tp := Put(tmp, tp, ":");
    }
  }

  lemma LastBytesOf(a: seq<byte>)
    requires |a| == 16
    ensures LastBytes(Words(a)) == a[12..]
  {
    assert WordBytes(Words(a)[6]) == [a[12], a[13]];
    assert WordBytes(Words(a)[7]) == [a[14], a[15]];
  }

  /** inet_ntop6: the canonical text and a NUL, if they fit. */
  method Ntop6(src: seq<byte>, dst: array<char>, size: nat) returns (ok: bool, ghost text: string)
    requires |src| == 16 && size <= dst.Length
    modifies dst
    ensures Canonical(text, src) && |text| < 46
    ensures ok <==> |text| + 1 <= size
    ensures ok ==> dst[..|text| + 1] == text + ['\0'] && dst[|text| + 1..] == old(dst[|text| + 1..])
    ensures !ok ==> dst[..] == old(dst[..])
  {
    var tmp := new char[46];
    var ws := ReadWords(src);
    var best := FindBest(ws);
    var tp := WriteWords(src, ws, best, tmp);
    text := Show(FormOf(ws, best));
    tp := Put(tmp, tp, ['\0']);
    if tp > size {
      return false, text;
    }
    var end := Put(dst, 0, tmp[..tp]);
    ok := true;
  }

  // ---- reading ----

  /** inet_pton4: the octets of a dotted quad, or nothing. */
  method Pton4(src: string, dst: array<byte>, at: nat) returns (ok: bool)
    requires at + 4 <= dst.Length
    modifies dst
    ensures ok <==> ParseQuad(src).Some?
    ensures ok ==> dst[..at + 4] == old(dst[..at]) + ParseQuad(src).value
    ensures ok ==> dst[at + 4..] == old(dst[at + 4..])
    ensures !ok ==> dst[..] == old(dst[..])
  {
    var tmp := new byte[4](_ => 0);
    var tp, sawDigit, octets := 0, false, 0;
    var i := 0;
    assert src[0..] == src && tmp[..1] == [0];
    while i < |src|
      invariant 0 <= i <= |src| && 0 <= tp < 4
      invariant octets == tp + if sawDigit then 1 else 0
      invariant !sawDigit ==> tmp[tp] == 0
      invariant fresh(tmp) && dst[..] == old(dst[..])
      invariant ParseQuad(src) == ScanQuad(src[i..], tmp[..tp + 1], sawDigit)
    {
      var ch := src[i];
      assert src[i..][1..] == src[i + 1..];
      i := i + 1;
      if '0' <= ch <= '9' {
        var nw := tmp[tp] * 10 + (ch as int - '0' as int);
        if sawDigit && tmp[tp] == 0 { return false; }
        if nw > 255 { return false; }
        ghost var before := tmp[..tp + 1];
        tmp[tp] := nw;
        assert tmp[..tp + 1] == before[tp := tmp[tp]];
        if !sawDigit {
          octets := octets + 1;
          if octets > 4 { return false; }
          sawDigit := true;
        }
      } else if ch == '.' && sawDigit {
        if octets == 4 { return false; }
        tp := tp + 1;
        ghost var before := tmp[..tp];
        tmp[tp] := 0;
        assert tmp[..tp + 1] == before + [0];
        sawDigit := false;
      } else {
        return false;
      }
    }
    if octets < 4 { return false; }
    assert tmp[..4] == tmp[..];
    Store(tmp, dst, at);
    ok := true;
  }

  /** memcpy of a whole buffer. */
  method Store(tmp: array<byte>, dst: array<byte>, at: nat)
    requires at + tmp.Length <= dst.Length && tmp != dst
    modifies dst
    ensures dst[..at + tmp.Length] == old(dst[..at]) + tmp[..]
    ensures dst[at + tmp.Length..] == old(dst[at + tmp.Length..])
  {
    var i := 0;
    while i < tmp.Length
      invariant 0 <= i <= tmp.Length
      invariant dst[..at + i] == old(dst[..at]) + tmp[..i]
      invariant dst[at + tmp.Length..] == old(dst[at + tmp.Length..])
    {
      dst[at + i] := tmp[i];
      i := i + 1;
    }
  }

  /** Stores the 16 bits of a group, high byte first. */
  method StoreWord(tmp: array<byte>, tp: nat, val: int) returns (end: nat)
    requires tp + 2 <= tmp.Length && 0 <= val < 0x1_0000
    modifies tmp
    ensures end == tp + 2 && tmp[..end] == old(tmp[..tp]) + WordBytes(val)
    ensures tmp[end..] == old(tmp[tp + 2..])
  {
    tmp[tp] := val / 256 % 256;
    tmp[tp + 1] := val % 256;
    end := tp + 2;
  }

  /** The shift "by hand": the bytes from `colon` up to `tp` move to the end of the buffer, and what
      they leave behind is zero. */
  method Shift(tmp: array<byte>, colon: nat, tp: nat)
    requires colon <= tp < tmp.Length
    requires forall i | tp <= i < tmp.Length :: tmp[i] == 0
    modifies tmp
    ensures tmp[..] == old(tmp[..colon]) + Zeros(tmp.Length - tp) + old(tmp[colon..tp])
  {
    var n, endp := tp - colon, tmp.Length;
    ghost var was := tmp[..];
    var i := 1;
    while i <= n
      invariant 1 <= i <= n + 1
      invariant tmp[..colon + n - (i - 1)] == was[..colon + n - (i - 1)]
      invariant forall j | colon + n - (i - 1) <= j < endp - (i - 1) :: tmp[j] == 0
      invariant tmp[endp - (i - 1)..] == was[colon + n - (i - 1)..tp]
    {
      tmp[endp - i] := tmp[colon + n - i];
      tmp[colon + n - i] := 0;
      i := i + 1;
    }
    Shifted(tmp[..], was, colon, tp);
  }

  lemma Shifted(now: seq<byte>, was: seq<byte>, colon: nat, tp: nat)
    requires colon <= tp < |was| == |now|
    requires now[..colon] == was[..colon]
    requires forall j | colon <= j < |now| - (tp - colon) :: now[j] == 0
    requires now[|now| - (tp - colon)..] == was[colon..tp]
    ensures now == was[..colon] + Zeros(|now| - tp) + was[colon..tp]
  {
    var e := |now| - (tp - colon);
    assert now == now[..colon] + now[colon..e] + now[e..];
    assert now[colon..e] == Zeros(|now| - tp);
  }

  lemma ScanStep(tok: string, s: string, out: seq<byte>, colon: Option<nat>)
    requires Hexes(tok) && s != ""
    ensures IsHex(s[0]) ==>
      Scan(tok, s, out, colon) == if |tok| == 4 then None else Scan(tok + [s[0]], s[1..], out, colon)
    ensures s[0] == ':' && tok == "" ==>
      Scan(tok, s, out, colon) == if colon.Some? then None else Scan("", s[1..], out, Some(|out|))
    ensures s[0] == ':' && tok != "" ==>
      Scan(tok, s, out, colon) == if s[1..] == "" || |out| + 2 > 16 then None
                                  else Scan("", s[1..], out + WordBytes(Number(tok)), colon)
    ensures s[0] == '.' ==>
      Scan(tok, s, out, colon) == if |out| + 4 <= 16 && ParseQuad(tok + s).Some?
                                  then Some(Read(out + ParseQuad(tok + s).value, colon)) else None
    ensures !IsHex(s[0]) && s[0] != ':' && s[0] != '.' ==> Scan(tok, s, out, colon) == None
  {
  }

  lemma EmptyNumber()
    ensures Hexes("") && Number("") == 0
  {
  }

  lemma ScanEnd(tok: string, out: seq<byte>, colon: Option<nat>)
    requires Hexes(tok)
    ensures Scan(tok, "", out, colon) == if tok == "" then Some(Read(out, colon))
                                         else if |out| + 2 > 16 then None
                                         else Some(Read(out + WordBytes(Number(tok)), colon))
  {
  }

  /** The loop of inet_pton6, with the group that the end of the text closes. */
  method ReadGroups(src: string, start: nat, tmp: array<byte>) returns (ok: bool, tp: nat, colon: Option<nat>)
    requires start <= |src| && tmp.Length == 16
    requires forall i | 0 <= i < 16 :: tmp[i] == 0
    modifies tmp
    ensures tp <= 16
    ensures ok <==> Scan("", src[start..], [], None).Some?
    ensures ok ==> Scan("", src[start..], [], None).value == Read(tmp[..tp], colon)
    ensures ok ==> forall i | tp <= i < 16 :: tmp[i] == 0
    ensures ok && colon.Some? ==> colon.value <= tp
  {
    hide Scan, Number, ParseQuad, ScanQuad, ShowQuad, WordBytes;
    var curtok, i, seenXdigits, val := start, start, 0, 0;
    EmptyNumber();
    tp, colon := 0, None;
    while i < |src|
      invariant start <= curtok <= i <= |src| && tp <= 16
      invariant seenXdigits == i - curtok && Hexes(src[curtok..i]) && val == Number(src[curtok..i])
      invariant colon.Some? ==> colon.value <= tp
      invariant forall j | tp <= j < 16 :: tmp[j] == 0
      invariant Scan("", src[start..], [], None) == Scan(src[curtok..i], src[i..], tmp[..tp], colon)
    {
      var ch := src[i];
      ghost var tok := src[curtok..i];
      ScanStep(tok, src[i..], tmp[..tp], colon);
      assert src[i..][1..] == src[i + 1..];
      i := i + 1;
      if IsHex(ch) {
        seenXdigits := seenXdigits + 1;
        if seenXdigits > 4 { return false, tp, colon; }
        assert src[curtok..i] == tok + [ch];
        MoreHex(tok, ch);
        val := val * 16 + HexValue(ch);
        continue;
      }
      if ch == ':' {
        curtok := i;
        if seenXdigits == 0 {
          if colon.Some? { return false, tp, colon; }
          colon := Some(tp);
          continue;
        } else if i == |src| {
          return false, tp, colon;
        }
        if tp + 2 > 16 { return false, tp, colon; }
        tp := StoreWord(tmp, tp, val);
        seenXdigits := 0;
        val := 0;
        continue;
      }
      if ch == '.' && tp + 4 <= 16 {
        assert src[curtok..] == tok + src[i - 1..];
        var read := Pton4(src[curtok..], tmp, tp);
        if read {
          tp := tp + 4;
          return true, tp, colon;
        }
      }
      return false, tp, colon;
    }
    assert src[i..] == "";
    ScanEnd(src[curtok..i], tmp[..tp], colon);
    if seenXdigits != 0 {
      if tp + 2 > 16 { return false, tp, colon; }
      tp := StoreWord(tmp, tp, val);
    }
    ok := true;
  }

  /** inet_pton6: accepts the text of the forms of RFC 4291 and stores the address it stands for;
      of other text the buffer notices nothing. */
  method Pton6(src: string, dst: array<byte>) returns (ok: bool)
    requires dst.Length == 16
    modifies dst
    ensures ok ==> Means(src, dst[..])
    ensures !ok ==> dst[..] == old(dst[..]) && forall a :: !Means(src, a)
  {
    var tmp := new byte[16](_ => 0);
    var start := 0;
    forall a ensures Parse(src) == Some(a) <==> Means(src, a) {
      ParseIff(src, a);
    }
    if src != "" && src[0] == ':' {
      start := 1;
      if |src| == 1 || src[1] != ':' { return false; }
    }
    assert src[0..] == src;
    var tp, colon;
    ok, tp, colon := ReadGroups(src, start, tmp);
    if !ok { return false; }
    if colon.Some? {
      if tp == 16 { return false; }
      assert tmp[..tp][..colon.value] == tmp[..colon.value];
      assert tmp[..tp][colon.value..] == tmp[colon.value..tp];
      Shift(tmp, colon.value, tp);
      tp := 16;
    }
    if tp != 16 { return false; }
    assert tmp[..16] == tmp[..];
    Store(tmp, dst, 0);
    assert dst[..16] == dst[..];
    ok := true;
  }

  /** What inet_ntop6 writes, inet_pton6 reads back. */
  method RoundTrip(src: seq<byte>) returns (dst: array<byte>)
    requires |src| == 16
    ensures fresh(dst) && dst[..] == src
  {
    var buffer := new char[46];
    dst := new byte[16](_ => 0);
    var written, text := Ntop6(src, buffer, 46);
    CanonicalParses(text, src);
    var s := buffer[..];
    assert s[..|text|] == buffer[..|text| + 1][..|text|] == text;
    assert s[|text|] == buffer[..|text| + 1][|text|] == '\0';
    ParseChars(text);
    var n := 0;
    while s[n] != '\0'
      invariant 0 <= n <= |text|
      decreases |text| - n
    {
      assert s[n] == text[n];
      n := n + 1;
    }
    var read := Pton6(s[..n], dst);
    ParseIff(text, dst[..]);
    ParseIff(text, src);
  }
}
