/** Textual addresses: what the forms of section 2.2 of RFC 4291 look like and mean, and the
    text that libuv/src/inet.c reads and writes. */
module InetText {
  import opened Options

  type byte = x: int | 0 <= x < 256
  type word = x: int | 0 <= x < 0x1_0000

  // ---- dotted quads ----

  function Digit(d: int): char
    requires 0 <= d < 16
  {
    "0123456789abcdef"[d]
  }

  /** The conversion %u of a byte. */
  function Decimal(b: byte): string {
    if b < 10 then [Digit(b)] else Decimal(b / 10) + [Digit(b % 10)]
  }

  function ShowQuad(q: seq<byte>): string {
    if q == [] then "" else if |q| == 1 then Decimal(q[0]) else Decimal(q[0]) + "." + ShowQuad(q[1..])
  }

  /** The loop of inet_pton4: `tmp` holds the octets begun so far, the last one still growing if
      `sawDigit`. */
  function ScanQuad(s: string, tmp: seq<byte>, sawDigit: bool): Option<seq<byte>>
    requires 1 <= |tmp| <= 4
    decreases |s|
  {
    var n := |tmp| - 1;
    if s == "" then if sawDigit && |tmp| == 4 then Some(tmp) else None
    else if '0' <= s[0] <= '9' then
      var nw := tmp[n] * 10 + (s[0] as int - '0' as int);
      if sawDigit && tmp[n] == 0 then None
      else if nw > 255 then None
      else ScanQuad(s[1..], tmp[n := nw], true)
    else if s[0] == '.' && sawDigit && |tmp| < 4 then ScanQuad(s[1..], tmp + [0], false)
    else None
  }

  function ParseQuad(s: string): Option<seq<byte>> {
    ScanQuad(s, [0], false)
  }

  /** The octets read from `s` on, when the one in progress is `b` (nothing, without a digit). */
  ghost predicate ReadsQuad(q: seq<byte>, tmp: seq<byte>, sawDigit: bool, s: string)
    requires 1 <= |tmp| <= 4
  {
    var n := |tmp| - 1;
    && |q| == 4 && q[..n] == tmp[..n]
    && ShowQuad(q[n..]) == (if sawDigit then Decimal(tmp[n]) else "") + s
  }

  lemma ReadsDigit(q: seq<byte>, tmp: seq<byte>, sawDigit: bool, d: int, s: string)
    requires 1 <= |tmp| <= 4 && 0 <= d < 10
    requires if sawDigit then tmp[|tmp| - 1] != 0 else tmp[|tmp| - 1] == 0
    requires tmp[|tmp| - 1] * 10 + d < 256
    requires ReadsQuad(q, tmp[|tmp| - 1 := tmp[|tmp| - 1] * 10 + d], true, s)
    ensures ReadsQuad(q, tmp, sawDigit, [Digit(d)] + s)
  {
    var n, b := |tmp| - 1, tmp[|tmp| - 1];
    var c: byte := b * 10 + d;
    assert q[..n] == tmp[n := c][..n] == tmp[..n];
    assert ShowQuad(q[n..]) == Decimal(c) + s;
    if sawDigit {
      assert c % 10 == d && c / 10 == b;
      assert (Decimal(b) + [Digit(d)]) + s == Decimal(b) + ([Digit(d)] + s);
    } else {
      assert "" + ([Digit(d)] + s) == [Digit(d)] + s;
    }
  }

  lemma ReadsDot(q: seq<byte>, tmp: seq<byte>, s: string)
    requires 1 <= |tmp| < 4
    requires ReadsQuad(q, tmp + [0], false, s)
    ensures ReadsQuad(q, tmp, true, "." + s)
  {
    var n := |tmp| - 1;
    assert q[..n + 1] == tmp;
    assert q[n] == q[..n + 1][n] == tmp[n];
    assert q[n..][1..] == q[n + 1..];
    assert "" + s == s;
    assert Decimal(q[n]) + "." + s == Decimal(q[n]) + ("." + s);
  }

  lemma {:induction false} ScanQuadSound(s: string, tmp: seq<byte>, sawDigit: bool)
    requires 1 <= |tmp| <= 4
    requires !sawDigit ==> tmp[|tmp| - 1] == 0
    requires ScanQuad(s, tmp, sawDigit).Some?
    ensures ReadsQuad(ScanQuad(s, tmp, sawDigit).value, tmp, sawDigit, s)
    decreases |s|
  {
    var q := ScanQuad(s, tmp, sawDigit).value;
    var n := |tmp| - 1;
    if s == "" {
      assert q[3..] == [tmp[3]];
      assert Decimal(tmp[3]) + "" == Decimal(tmp[3]);
    } else {
      assert s == [s[0]] + s[1..];
      if '0' <= s[0] <= '9' {
        var d := s[0] as int - '0' as int;
        assert s[0] == Digit(d);
        ScanQuadSound(s[1..], tmp[n := tmp[n] * 10 + d], true);
        ReadsDigit(q, tmp, sawDigit, d, s[1..]);
      } else {
        ScanQuadSound(s[1..], tmp + [0], false);
        ReadsDot(q, tmp, s[1..]);
      }
    }
  }

  lemma ScanDigit(d: int, rest: string, tmp: seq<byte>, b: byte, sawDigit: bool)
    requires 0 <= d < 10 && |tmp| < 4
    requires b * 10 + d < 256 && (sawDigit ==> b != 0)
    ensures ScanQuad([Digit(d)] + rest, tmp + [b], sawDigit) == ScanQuad(rest, tmp + [b * 10 + d], true)
  {
    assert ([Digit(d)] + rest)[1..] == rest;
    assert (tmp + [b])[|tmp| := b * 10 + d] == tmp + [b * 10 + d];
  }

  lemma {:induction false} ScanDecimal(b: byte, rest: string, tmp: seq<byte>)
    requires |tmp| < 4
    ensures ScanQuad(Decimal(b) + rest, tmp + [0], false) == ScanQuad(rest, tmp + [b], true)
  {
    if b < 10 {
      ScanDigit(b, rest, tmp, 0, false);
    } else {
      assert Decimal(b) + rest == Decimal(b / 10) + ([Digit(b % 10)] + rest);
      ScanDecimal(b / 10, [Digit(b % 10)] + rest, tmp);
      ScanDigit(b % 10, rest, tmp, b / 10, true);
    }
  }

  lemma {:induction false} ScanQuadComplete(q: seq<byte>, n: nat)
    requires |q| == 4 && n < 4
    ensures ScanQuad(ShowQuad(q[n..]), q[..n] + [0], false) == Some(q)
    decreases 4 - n
  {
    var rest := if n == 3 then "" else "." + ShowQuad(q[n + 1..]);
    assert q[n..][1..] == q[n + 1..];
    assert ShowQuad(q[n..]) == Decimal(q[n]) + rest;
    ScanDecimal(q[n], rest, q[..n]);
    assert q[..n] + [q[n]] == q[..n + 1];
    if n == 3 {
      assert q[..4] == q;
    } else {
      assert rest[1..] == ShowQuad(q[n + 1..]);
      ScanQuadComplete(q, n + 1);
    }
  }

  /** A text is read as four octets exactly if it is what those octets are written as: decimal, without
      leading zeros, separated by dots, nothing before or after. */
  lemma QuadIff(s: string, q: seq<byte>)
    ensures ParseQuad(s) == Some(q) <==> |q| == 4 && s == ShowQuad(q)
  {
    if ParseQuad(s) == Some(q) {
      ScanQuadSound(s, [0], false);
      assert q[0..] == q;
      assert "" + s == s;
    }
    if |q| == 4 && s == ShowQuad(q) {
      ScanQuadComplete(q, 0);
      assert q[0..] == q && q[..0] + [0] == [0];
    }
  }

  // ---- groups ----

  predicate IsHex(c: char) {
    '0' <= c <= '9' || 'a' <= c <= 'f' || 'A' <= c <= 'F'
  }

  function HexValue(c: char): (v: int)
    requires IsHex(c)
    ensures 0 <= v < 16
  {
    if c <= '9' then c as int - '0' as int
    else if c <= 'F' then c as int - 'A' as int + 10
    else c as int - 'a' as int + 10
  }

  predicate Hexes(s: string) {
    |s| <= 4 && forall i | 0 <= i < |s| :: IsHex(s[i])
  }

  function Number(s: string): (v: int)
    requires Hexes(s)
    ensures 0 <= v < 0x1_0000
    ensures |s| <= 3 ==> v < 0x1000
    ensures |s| <= 2 ==> v < 0x100
    ensures |s| <= 1 ==> v < 0x10
  {
    if s == "" then 0 else Number(s[..|s| - 1]) * 16 + HexValue(s[|s| - 1])
  }

  function WordBytes(w: word): (b: seq<byte>)
    ensures |b| == 2
  {
    [w / 256, w % 256]
  }

  /** One piece between colons: up to four hexadecimal digits, or an IPv4 address. */
  datatype Piece = Hex(digits: string) | Quad(octets: seq<byte>)

  predicate IsPiece(p: Piece) {
    match p
    case Hex(d) => 1 <= |d| && Hexes(d)
    case Quad(q) => |q| == 4
  }

  function PieceText(p: Piece): string {
    match p
    case Hex(d) => d
    case Quad(q) => ShowQuad(q)
  }

  function PieceBytes(p: Piece): seq<byte>
    requires IsPiece(p)
  {
    match p
    case Hex(d) => WordBytes(Number(d))
    case Quad(q) => q
  }

  predicate AllHex(ps: seq<Piece>) {
    forall i | 0 <= i < |ps| :: IsPiece(ps[i]) && ps[i].Hex?
  }

  /** Pieces of which only the last may be an IPv4 address. */
  predicate Pieces(ps: seq<Piece>) {
    forall i | 0 <= i < |ps| :: IsPiece(ps[i]) && (ps[i].Hex? || i == |ps| - 1)
  }

  function Join(ps: seq<Piece>): string {
    if ps == [] then "" else if |ps| == 1 then PieceText(ps[0]) else PieceText(ps[0]) + ":" + Join(ps[1..])
  }

  function Bytes(ps: seq<Piece>): seq<byte>
    requires Pieces(ps)
  {
    if ps == [] then [] else PieceBytes(ps[0]) + Bytes(ps[1..])
  }

  /** What an address is written as: pieces, possibly with one "::" between `head` and `tail`. */
  datatype Form = Form(head: seq<Piece>, gap: bool, tail: seq<Piece>)

  predicate Shaped(f: Form) {
    && Pieces(f.head) && Pieces(f.tail)
    && (if f.gap then AllHex(f.head) else f.tail == [])
  }

  function Body(f: Form): seq<byte>
    requires Shaped(f)
  {
    Bytes(f.head) + Bytes(f.tail)
  }

  /** The forms of section 2.2 of RFC 4291: all 16 bytes are spelled out, or "::" stands for one or
      more groups of zeros. */
  predicate IsForm(f: Form) {
    Shaped(f) && if f.gap then |Body(f)| < 16 else |Body(f)| == 16
  }

  function Zeros(n: nat): (z: seq<byte>)
    ensures |z| == n && forall i | 0 <= i < n :: z[i] == 0
  {
    if n == 0 then [] else Zeros(n - 1) + [0]
  }

  function Value(f: Form): seq<byte>
    requires IsForm(f)
  {
    Bytes(f.head) + Zeros(16 - |Body(f)|) + Bytes(f.tail)
  }

  function Show(f: Form): string {
    if f.gap then Join(f.head) + "::" + Join(f.tail) else Join(f.head)
  }

  // ---- the reader ----

  datatype Read = Read(out: seq<byte>, colon: Option<nat>)

  /** The loop of inet_pton6 and the group that the end of the text closes: `tok` is the text since
      the last colon, `out` the bytes stored, `colon` where "::" was seen. */
  function Scan(tok: string, s: string, out: seq<byte>, colon: Option<nat>): Option<Read>
    requires Hexes(tok)
    decreases |s|
  {
    if s == "" then
      if tok == "" then Some(Read(out, colon))
      else if |out| + 2 > 16 then None
      else Some(Read(out + WordBytes(Number(tok)), colon))
    else if IsHex(s[0]) then
      if |tok| == 4 then None else Scan(tok + [s[0]], s[1..], out, colon)
    else if s[0] == ':' then
      if tok == "" then
        if colon.Some? then None else Scan("", s[1..], out, Some(|out|))
      else if s[1..] == "" then None
      else if |out| + 2 > 16 then None
      else Scan("", s[1..], out + WordBytes(Number(tok)), colon)
    else if s[0] == '.' && |out| + 4 <= 16 then
      match ParseQuad(tok + s)
      case Some(q) => Some(Read(out + q, colon))
      case None => None
    else None
  }

  /** What the code after the loop makes of the bytes read: the part after "::" moves to the end. */
  function Finish(r: Read): Option<seq<byte>> {
    match r.colon
    case None => if |r.out| == 16 then Some(r.out) else None
    case Some(k) =>
      if |r.out| >= 16 || k > |r.out| then None
      else Some(r.out[..k] + Zeros(16 - |r.out|) + r.out[k..])
  }

  /** inet_pton6: of a leading "::" the first colon is skipped. */
  function Parse(s: string): Option<seq<byte>> {
    if s != "" && s[0] == ':' && (|s| == 1 || s[1] != ':') then None
    else
      var r := Scan("", if s != "" && s[0] == ':' then s[1..] else s, [], None);
      if r.Some? then Finish(r.value) else None
  }

  // ---- what the reader accepts ----

  /** The text that a form without its leading pieces is read from: before "::" without pieces in
      front, one colon is already consumed. */
  function Rest(f: Form): string {
    if f.gap && f.head == [] then ":" + Join(f.tail) else Show(f)
  }

  /** What the loop has read after a form. */
  function Taken(f: Form, out: seq<byte>, colon: Option<nat>): Read
    requires Shaped(f)
  {
    Read(out + Body(f), if f.gap then Some(|out| + |Bytes(f.head)|) else colon)
  }

  ghost predicate Reads(f: Form, text: string, out: seq<byte>, colon: Option<nat>, r: Read) {
    && Shaped(f) && (colon.Some? ==> !f.gap)
    && text == Rest(f)
    && r == Taken(f, out, colon)
    && |r.out| <= 16
  }

  lemma OnePiece(p: Piece)
    requires IsPiece(p)
    ensures Pieces([p]) && Bytes([p]) == PieceBytes(p) && Join([p]) == PieceText(p)
  {
    assert [p][1..] == [];
  }

  lemma MorePieces(p: Piece, ps: seq<Piece>)
    requires IsPiece(p) && p.Hex? && Pieces(ps)
    ensures Pieces([p] + ps) && Bytes([p] + ps) == PieceBytes(p) + Bytes(ps)
    ensures AllHex(ps) ==> AllHex([p] + ps)
    ensures ps != [] ==> Join([p] + ps) == PieceText(p) + ":" + Join(ps)
  {
    assert ([p] + ps)[1..] == ps;
    forall i | 0 <= i < |ps| + 1 ensures IsPiece(([p] + ps)[i]) && (([p] + ps)[i].Hex? || i == |ps|) {
      if 0 < i { assert ([p] + ps)[i] == ps[i - 1]; }
    }
    if AllHex(ps) {
      forall i | 0 <= i < |ps| + 1 ensures IsPiece(([p] + ps)[i]) && ([p] + ps)[i].Hex? {
        if 0 < i { assert ([p] + ps)[i] == ps[i - 1]; }
      }
    }
  }

  lemma JoinOne(f: Form, tok: string, out: seq<byte>, colon: Option<nat>, p: Piece)
    requires IsPiece(p) && |out| + |PieceBytes(p)| <= 16
    requires f == Form([p], false, []) && tok == PieceText(p)
    ensures Reads(f, tok, out, colon, Read(out + PieceBytes(p), colon))
  {
    OnePiece(p);
  }

  lemma Assoc<T>(a: seq<T>, b: seq<T>, c: seq<T>)
    ensures a + b + c == a + (b + c)
  {
  }

  lemma GroupText(d: string, f: Form)
    requires Shaped(f) && 1 <= |d| && Hexes(d) && Rest(f) != ""
    ensures var g := Form([Hex(d)] + f.head, f.gap, f.tail); Shaped(g) && Rest(g) == d + (":" + Rest(f))
  {
    MorePieces(Hex(d), f.head);
    var t := Join(f.tail);
    if f.head == [] {
      OnePiece(Hex(d));
      assert [Hex(d)] + f.head == [Hex(d)];
      assert ":" + (":" + t) == "::" + t;
      Assoc(d, "::", t);
    } else {
      var u := Join(f.head);
      Assoc(d, ":", u);
      if f.gap {
        Assoc(d + (":" + u), "::", t);
        Assoc(d, ":" + u, "::" + t);
        Assoc(":", u, "::" + t);
        Assoc(u, "::", t);
      }
    }
  }

  lemma GroupBytes(d: string, f: Form)
    requires Shaped(f) && 1 <= |d| && Hexes(d)
    ensures var g := Form([Hex(d)] + f.head, f.gap, f.tail);
            && Shaped(g) && |Bytes(g.head)| == 2 + |Bytes(f.head)|
            && Body(g) == WordBytes(Number(d)) + Body(f)
  {
    MorePieces(Hex(d), f.head);
  }

  lemma TakenShifts(f: Form, g: Form, w: seq<byte>, out: seq<byte>, colon: Option<nat>)
    requires Shaped(f) && Shaped(g) && f.gap == g.gap
    requires Body(g) == w + Body(f) && |Bytes(g.head)| == |w| + |Bytes(f.head)|
    ensures Taken(g, out, colon) == Taken(f, out + w, colon)
  {
    Assoc(out, w, Body(f));
  }

  lemma GroupTaken(f: Form, g: Form, d: string, out: seq<byte>, colon: Option<nat>)
    requires Shaped(f) && 1 <= |d| && Hexes(d)
    requires g == Form([Hex(d)] + f.head, f.gap, f.tail)
    ensures Shaped(g) && Taken(g, out, colon) == Taken(f, out + WordBytes(Number(d)), colon)
  {
    GroupBytes(d, f);
    TakenShifts(f, g, WordBytes(Number(d)), out, colon);
  }

  /** A group and the colon after it, in front of what is read already. */
  lemma ReadsGroup(f: Form, g: Form, tok: string, s: string, out: seq<byte>, colon: Option<nat>, r: Read)
    requires 1 <= |tok| && Hexes(tok) && s != ""
    requires Reads(f, s, out + WordBytes(Number(tok)), colon, r)
    requires g == Form([Hex(tok)] + f.head, f.gap, f.tail)
    ensures Reads(g, tok + (":" + s), out, colon, r)
  {
    GroupText(tok, f);
    GroupTaken(f, g, tok, out, colon);
  }

  lemma ReadsGap(f: Form, s: string, out: seq<byte>, r: Read)
    requires Reads(f, s, out, Some(|out|), r)
    ensures Reads(Form([], true, f.head), ":" + s, out, None, r)
  {
    assert f.tail == [];
    assert out + (Bytes(f.head) + []) == out + ([] + Bytes(f.head));
  }

  lemma ScanEndSound(tok: string, out: seq<byte>, colon: Option<nat>) returns (f: Form)
    requires Hexes(tok) && |out| <= 16
    requires Scan(tok, "", out, colon).Some?
    ensures Reads(f, tok, out, colon, Scan(tok, "", out, colon).value)
  {
    if tok == "" {
      f := Form([], false, []);
      assert out + Body(f) == out;
    } else {
      f := Form([Hex(tok)], false, []);
      JoinOne(f, tok, out, colon, Hex(tok));
    }
  }

  lemma ScanQuadPieceSound(s: string, out: seq<byte>, colon: Option<nat>, q: seq<byte>) returns (f: Form)
    requires ParseQuad(s) == Some(q) && |out| + 4 <= 16
    ensures Reads(f, s, out, colon, Read(out + q, colon))
  {
    QuadIff(s, q);
    f := Form([Quad(q)], false, []);
    JoinOne(f, s, out, colon, Quad(q));
  }

  lemma ScanColonSound(tok: string, s: string, out: seq<byte>, colon: Option<nat>, r: Read, g: Form) returns (f: Form)
    requires 1 <= |s| && s[0] == ':' && Hexes(tok) && |out| <= 16
    requires tok == "" ==> colon == None && Reads(g, s[1..], out, Some(|out|), r)
    requires tok != "" ==> s[1..] != "" && Reads(g, s[1..], out + WordBytes(Number(tok)), colon, r)
    ensures Reads(f, tok + s, out, colon, r)
  {
    assert s == ":" + s[1..];
    if tok == "" {
      assert tok + s == ":" + s[1..];
      f := Form([], true, g.head);
      ReadsGap(g, s[1..], out, r);
    } else {
      f := Form([Hex(tok)] + g.head, g.gap, g.tail);
      ReadsGroup(g, f, tok, s[1..], out, colon, r);
    }
  }

  lemma {:induction false} ScanSound(tok: string, s: string, out: seq<byte>, colon: Option<nat>) returns (f: Form)
    requires Hexes(tok) && |out| <= 16
    requires Scan(tok, s, out, colon).Some?
    ensures Reads(f, tok + s, out, colon, Scan(tok, s, out, colon).value)
    decreases |s|
  {
    if s == "" {
      assert tok + s == tok;
      f := ScanEndSound(tok, out, colon);
    } else if IsHex(s[0]) {
      f := ScanSound(tok + [s[0]], s[1..], out, colon);
      assert tok + [s[0]] + s[1..] == tok + s;
    } else if s[0] == ':' {
      var g;
      if tok == "" {
        g := ScanSound("", s[1..], out, Some(|out|));
      } else {
        g := ScanSound("", s[1..], out + WordBytes(Number(tok)), colon);
      }
      assert "" + s[1..] == s[1..];
      f := ScanColonSound(tok, s, out, colon, Scan(tok, s, out, colon).value, g);
    } else {
      f := ScanQuadPieceSound(tok + s, out, colon, ParseQuad(tok + s).value);
    }
  }

  lemma {:induction false} DecimalDigits(b: byte)
    ensures b < 10 ==> |Decimal(b)| == 1
    ensures b < 100 ==> |Decimal(b)| <= 2
    ensures 1 <= |Decimal(b)| <= 3 && Hexes(Decimal(b))
  {
    if 10 <= b { DecimalDigits(b / 10); }
  }

  lemma PieceStart(p: Piece)
    requires IsPiece(p)
    ensures PieceText(p) != "" && IsHex(PieceText(p)[0])
  {
    if p.Quad? { DecimalDigits(p.octets[0]); }
  }

  lemma RestStart(f: Form)
    requires Shaped(f)
    ensures Rest(f) == "" <==> f.head == [] && !f.gap
    ensures Rest(f) != "" ==> (Rest(f)[0] == ':' <==> f.gap && f.head == [])
    ensures f.head != [] ==> IsHex(Rest(f)[0])
  {
    if f.head != [] {
      PieceStart(f.head[0]);
      assert Join(f.head)[0] == PieceText(f.head[0])[0];
    }
  }

  lemma {:induction false} ScanToken(tok: string, h: string, s: string, out: seq<byte>, colon: Option<nat>)
    requires Hexes(tok) && Hexes(tok + h)
    ensures Scan(tok, h + s, out, colon) == Scan(tok + h, s, out, colon)
    decreases |h|
  {
    if h == "" {
      assert h + s == s && tok + h == tok;
    } else {
      assert (tok + h)[|tok|] == h[0];
      assert (h + s)[1..] == h[1..] + s;
      assert tok + [h[0]] + h[1..] == tok + h;
      assert Hexes(tok + [h[0]]);
      ScanToken(tok + [h[0]], h[1..], s, out, colon);
    }
  }

  lemma ScanQuadPiece(q: seq<byte>, out: seq<byte>, colon: Option<nat>)
    requires |q| == 4 && |out| + 4 <= 16
    ensures Scan("", ShowQuad(q), out, colon) == Some(Read(out + q, colon))
  {
    var h, s := Decimal(q[0]), "." + ShowQuad(q[1..]);
    DecimalDigits(q[0]);
    assert ShowQuad(q) == h + s && "" + h == h;
    ScanToken("", h, s, out, colon);
    QuadIff(h + s, q);
  }

  lemma ScanGroup(d: string, s: string, out: seq<byte>, colon: Option<nat>)
    requires 1 <= |d| && Hexes(d) && s != "" && |out| + 2 <= 16
    ensures Scan("", d + (":" + s), out, colon) == Scan("", s, out + WordBytes(Number(d)), colon)
  {
    assert "" + d == d;
    ScanToken("", d, ":" + s, out, colon);
    assert (":" + s)[1..] == s;
  }

  lemma ScanLast(d: string, out: seq<byte>, colon: Option<nat>)
    requires 1 <= |d| && Hexes(d) && |out| + 2 <= 16
    ensures Scan("", d, out, colon) == Some(Read(out + WordBytes(Number(d)), colon))
  {
    assert d + "" == d && "" + d == d;
    ScanToken("", d, "", out, colon);
  }

  lemma Uncons(ps: seq<Piece>)
    requires ps != []
    ensures [ps[0]] + ps[1..] == ps
  {
  }

  /** The loop reads the rest of a form and leaves what it stands for. */
  ghost predicate IsRead(f: Form, out: seq<byte>, colon: Option<nat>)
    requires Shaped(f)
  {
    Scan("", Rest(f), out, colon) == Some(Taken(f, out, colon))
  }

  lemma ReadGroup(f: Form, g: Form, out: seq<byte>, colon: Option<nat>)
    requires Shaped(f) && f.head != [] && f.head[0].Hex? && (f.gap || 1 < |f.head|)
    requires g == Form(f.head[1..], f.gap, f.tail) && |out| + 2 <= 16
    requires Shaped(g) && IsRead(g, out + WordBytes(Number(f.head[0].digits)), colon)
    ensures IsRead(f, out, colon)
  {
    var d := f.head[0].digits;
    Uncons(f.head);
    RestStart(g);
    GroupText(d, g);
    GroupTaken(g, f, d, out, colon);
    ScanGroup(d, Rest(g), out, colon);
  }

  lemma ReadGap(f: Form, g: Form, out: seq<byte>)
    requires Shaped(f) && f.gap && f.head == []
    requires g == Form(f.tail, false, []) && IsRead(g, out, Some(|out|))
    ensures IsRead(f, out, None)
  {
    assert Body(g) == Bytes(f.tail) == Body(f);
    assert (":" + Join(f.tail))[1..] == Join(f.tail);
  }

  lemma ReadLast(f: Form, out: seq<byte>, colon: Option<nat>)
    requires Shaped(f) && !f.gap && |f.head| <= 1 && |out| + |Body(f)| <= 16
    ensures IsRead(f, out, colon)
  {
    if f.head == [] {
      assert out + Body(f) == out;
    } else {
      OnePiece(f.head[0]);
      assert f.head == [f.head[0]] && Body(f) == PieceBytes(f.head[0]);
      match f.head[0]
      case Hex(d) => ScanLast(d, out, colon);
      case Quad(q) => ScanQuadPiece(q, out, colon);
    }
  }

  lemma {:induction false} ScanComplete(f: Form, out: seq<byte>, colon: Option<nat>)
    requires Shaped(f) && (colon.Some? ==> !f.gap) && |out| + |Body(f)| <= 16
    ensures IsRead(f, out, colon)
    decreases |f.head| + |f.tail|, f.gap
  {
    if f.gap && f.head == [] {
      var g := Form(f.tail, false, []);
      ScanComplete(g, out, Some(|out|));
      ReadGap(f, g, out);
    } else if f.gap || 1 < |f.head| {
      var g := Form(f.head[1..], f.gap, f.tail);
      var d := f.head[0].digits;
      Uncons(f.head);
      GroupBytes(d, g);
      ScanComplete(g, out + WordBytes(Number(d)), colon);
      ReadGroup(f, g, out, colon);
    } else {
      ReadLast(f, out, colon);
    }
  }

  lemma FinishGap(f: Form, r: Read)
    requires Shaped(f) && r.out == Body(f)
    requires r.colon == if f.gap then Some(|Bytes(f.head)|) else None
    ensures Finish(r).Some? <==> IsForm(f)
    ensures IsForm(f) ==> Finish(r) == Some(Value(f))
  {
    if f.gap {
      assert Body(f)[..|Bytes(f.head)|] == Bytes(f.head);
      assert Body(f)[|Bytes(f.head)|..] == Bytes(f.tail);
    } else if |Body(f)| == 16 {
      assert Bytes(f.head) + [] + [] == Bytes(f.head) + [];
    }
  }

  /** What the loop is given of the text of a form: all of it, or all but the first colon. */
  lemma SkipColon(f: Form)
    requires IsForm(f)
    ensures var s := Show(f);
            && s != "" && Rest(f) == (if s[0] == ':' then s[1..] else s)
            && (s[0] == ':' ==> 2 <= |s| && s[1] == ':')
  {
    RestStart(f);
    if f.gap && f.head == [] {
      assert Show(f) == "" + "::" + Join(f.tail) == ":" + Rest(f);
      assert (":" + Rest(f))[1..] == Rest(f);
    }
  }

  lemma ParseSound(s: string) returns (f: Form)
    requires Parse(s).Some?
    ensures IsForm(f) && Show(f) == s && Value(f) == Parse(s).value
  {
    var u := if s != "" && s[0] == ':' then s[1..] else s;
    f := ScanSound("", u, [], None);
    assert "" + u == u && [] + Body(f) == Body(f);
    RestStart(f);
    FinishGap(f, Scan("", u, [], None).value);
    if s != "" && s[0] == ':' {
      assert s == ":" + (":" + Join(f.tail)) == "" + "::" + Join(f.tail);
    }
  }

  lemma ParseComplete(f: Form)
    requires IsForm(f)
    ensures Parse(Show(f)) == Some(Value(f))
  {
    var r := Read(Body(f), if f.gap then Some(|Bytes(f.head)|) else None);
    assert Scan("", Rest(f), [], None) == Some(r) by {
      assert [] + Body(f) == Body(f);
      ScanComplete(f, [], None);
    }
    FinishGap(f, r);
    SkipColon(f);
  }

  ghost predicate Means(s: string, a: seq<byte>) {
    exists f: Form :: IsForm(f) && Show(f) == s && Value(f) == a
  }

  /** inet_pton6 accepts exactly the text of the forms of section 2.2 of RFC 4291, and gives the
      address that the form stands for. */
  lemma ParseIff(s: string, a: seq<byte>)
    ensures Parse(s) == Some(a) <==> Means(s, a)
  {
    if Parse(s) == Some(a) {
      var f := ParseSound(s);
    }
    if Means(s, a) {
      var f: Form :| IsForm(f) && Show(f) == s && Value(f) == a;
      ParseComplete(f);
    }
  }

  lemma {:induction false} ScanQuadChars(s: string, tmp: seq<byte>, sawDigit: bool)
    requires 1 <= |tmp| <= 4 && ScanQuad(s, tmp, sawDigit).Some?
    ensures '\0' !in s
    decreases |s|
  {
    if s != "" {
      var n := |tmp| - 1;
      if '0' <= s[0] <= '9' {
        ScanQuadChars(s[1..], tmp[n := tmp[n] * 10 + (s[0] as int - '0' as int)], true);
      } else {
        ScanQuadChars(s[1..], tmp + [0], false);
      }
    }
  }

  lemma {:induction false} ScanChars(tok: string, s: string, out: seq<byte>, colon: Option<nat>)
    requires Hexes(tok) && Scan(tok, s, out, colon).Some?
    ensures '\0' !in s
    decreases |s|
  {
    if s != "" {
      if IsHex(s[0]) {
        ScanChars(tok + [s[0]], s[1..], out, colon);
      } else if s[0] == ':' && tok == "" {
        ScanChars("", s[1..], out, Some(|out|));
      } else if s[0] == ':' {
        ScanChars("", s[1..], out + WordBytes(Number(tok)), colon);
      } else {
        ScanQuadChars(tok + s, [0], false);
        forall i | 0 <= i < |s| ensures s[i] != '\0' { assert (tok + s)[|tok| + i] == s[i]; }
      }
    }
  }

  /** The text of an address contains no NUL, so a C string can hold it. */
  lemma ParseChars(s: string)
    requires Parse(s).Some?
    ensures '\0' !in s
  {
    ScanChars("", if s[0] == ':' then s[1..] else s, [], None);
  }
}
