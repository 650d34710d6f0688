/** The text forms of IPv4 and IPv6 addresses, and what parsing them yields: the
    specifications of inet.c's printers and parsers. */
module InetText {
  import opened Wrappers

  type Byte = x: int | 0 <= x < 0x100
  type Word = x: int | 0 <= x < 0x1_0000

  // ---------- Numbers ----------

  function DigitChar(d: int): (c: char)
    requires 0 <= d < 16
  {
    if d < 10 then ('0' as int + d) as char else ('a' as int + d - 10) as char
  }

  /** "%u" */
  function Dec(n: nat): (s: string)
    ensures |s| > 0 && (n < 10 ==> |s| == 1) && (n < 100 ==> |s| <= 2) && (n < 1000 ==> |s| <= 3)
  {
    if n < 10 then [DigitChar(n)] else Dec(n / 10) + [DigitChar(n % 10)]
  }

  /** "%x" */
  function Hex(n: nat): (s: string)
    ensures |s| > 0 && (n < 16 ==> |s| == 1) && (n < 256 ==> |s| <= 2) && (n < 4096 ==> |s| <= 3) && (n < 65536 ==> |s| <= 4)
  {
    if n < 16 then [DigitChar(n)] else Hex(n / 16) + [DigitChar(n % 16)]
  }

  predicate IsDigit(c: char) {
    '0' <= c <= '9'
  }

  /** The value of a hexadecimal digit of either case. */
  function HexValue(c: char): (d: Option<int>)
    ensures d.Some? ==> 0 <= d.value < 16
  {
    if '0' <= c <= '9' then Some(c as int - '0' as int)
    else if 'a' <= c <= 'f' then Some(c as int - 'a' as int + 10)
    else if 'A' <= c <= 'F' then Some(c as int - 'A' as int + 10)
    else None
  }

  // ---------- IPv4 ----------

  /** Each octet and the dot after it. */
  function Dotted(b: seq<Byte>): string {
    if b == [] then "" else Dotted(b[..|b| - 1]) + Dec(b[|b| - 1]) + "."
  }

  /** The canonical dotted quad. */
  function Text4(b: seq<Byte>): (s: string)
    requires |b| == 4
    ensures s != []
  {
    Dotted(b[..3]) + Dec(b[3])
  }

  /** inet_pton4 from the middle of a text: the octets that are complete, the one being
      read, and whether a digit of it was seen. */
  function Scan4(done: seq<Byte>, cur: Byte, saw: bool, s: string): (r: Option<seq<Byte>>)
    ensures r.Some? && |done| <= 3 ==> |r.value| == 4
    decreases |s|
  {
    if s == [] then
      if |done| + (if saw then 1 else 0) < 4 then None else Some(done + [cur])
    else if IsDigit(s[0]) then
      var nw := cur * 10 + (s[0] as int - '0' as int);
      if saw && cur == 0 then None
      else if nw > 255 then None
      else if !saw && |done| + 1 > 4 then None
      else Scan4(done, nw, true, s[1..])
    else if s[0] == '.' && saw then
      if |done| + 1 == 4 then None else Scan4(done + [cur], 0, false, s[1..])
    else None
  }

  function Parse4(s: string): (r: Option<seq<Byte>>)
    ensures r.Some? ==> |r.value| == 4
  {
    Scan4([], 0, false, s)
  }

  lemma ScanDigit(done: seq<Byte>, cur: Byte, saw: bool, d: nat, rest: string)
    requires d < 10 && |done| < 4 && cur * 10 + d <= 255 && (saw ==> cur > 0)
    ensures Scan4(done, cur, saw, [DigitChar(d)] + rest) == Scan4(done, cur * 10 + d, true, rest)
  {
    assert ([DigitChar(d)] + rest)[1..] == rest;
  }

  lemma {:induction false} ScanOctet(done: seq<Byte>, x: Byte, rest: string)
    requires |done| < 4
    ensures Scan4(done, 0, false, Dec(x) + rest) == Scan4(done, x, true, rest)
    decreases x
  {
    hide Scan4, DigitChar;
    var d := DigitChar(x % 10);
    if x < 10 {
      assert Dec(x) + rest == [d] + rest;
      ScanDigit(done, 0, false, x, rest);
    } else {
      assert Dec(x) + rest == Dec(x / 10) + ([d] + rest);
      hide Dec;
      ScanOctet(done, x / 10, [d] + rest);
      ScanDigit(done, x / 10, true, x % 10, rest);
    }
  }

  lemma {:induction false} ScanDotted(done: seq<Byte>, b: seq<Byte>, rest: string)
    requires |done| + |b| <= 3
    ensures Scan4(done, 0, false, Dotted(b) + rest) == Scan4(done + b, 0, false, rest)
    decreases |b|
  {
    if b == [] {
      assert Dotted(b) + rest == rest && done + b == done;
    } else {
      var k := |b| - 1;
      var rest' := "." + rest;
      ScanDotted(done, b[..k], Dec(b[k]) + rest');
      ScanOctet(done + b[..k], b[k], rest');
      assert Dotted(b) + rest == Dotted(b[..k]) + (Dec(b[k]) + rest');
      assert rest'[1..] == rest;
      assert done + b[..k] + [b[k]] == done + b;
    }
  }

  /** The digits of the octet being read. */
  function Reading(cur: Byte, saw: bool): string {
    if saw then Dec(cur) else ""
  }

  lemma ReadingGrows(cur: Byte, saw: bool, d: int, c: char)
    requires 0 <= d < 10 && c == DigitChar(d)
    requires if saw then cur > 0 else cur == 0
    ensures Dec(cur * 10 + d) == Reading(cur, saw) + [c]
  {
    var n := cur * 10 + d;
    if saw {
      assert n / 10 == cur && n % 10 == d;
      assert Dec(n) == Dec(cur) + [c];
    } else {
      assert n == d;
    }
  }

  lemma DottedSnoc(done: seq<Byte>, cur: Byte)
    ensures Dotted(done + [cur]) == Dotted(done) + Dec(cur) + "."
  {
    assert (done + [cur])[..|done|] == done;
  }

  /** Whatever is accepted is the canonical text of what is returned. */
  lemma {:induction false} ScannedIsCanonical(done: seq<Byte>, cur: Byte, saw: bool, s: string, b: seq<Byte>)
    requires |done| <= 3 && Scan4(done, cur, saw, s) == Some(b) && (!saw ==> cur == 0)
    ensures Dotted(done) + Reading(cur, saw) + s == Text4(b)
    decreases |s|
  {
    hide Dec, Dotted;
    if s == [] {
      assert saw && b[..3] == done;
    } else {
      assert [s[0]] + s[1..] == s;
      if IsDigit(s[0]) {
        var d := s[0] as int - '0' as int;
        ScannedIsCanonical(done, cur * 10 + d, true, s[1..], b);
        ReadingGrows(cur, saw, d, s[0]);
      } else {
        ScannedIsCanonical(done + [cur], 0, false, s[1..], b);
        DottedSnoc(done, cur);
      }
    }
  }

  /** Parsing and printing are inverse: the texts that are accepted are exactly the
      canonical ones. */
  lemma Parse4Inverse(s: string, b: seq<Byte>)
    requires |b| == 4
    ensures Parse4(s) == Some(b) <==> s == Text4(b)
  {
    ScanDotted([], b[..3], Dec(b[3]));
    ScanOctet(b[..3], b[3], "");
    assert [] + b[..3] == b[..3] && Dec(b[3]) + "" == Dec(b[3]) && b[..3] + [b[3]] == b;
    if Parse4(s) == Some(b) {
      ScannedIsCanonical([], 0, false, s, b);
      assert Dotted([]) + "" + s == s;
    }
  }

  // ---------- IPv6 ----------

  function WordBytes(v: Word): seq<Byte> {
    [v / 256, v % 256]
  }

  function Bytes(ws: seq<Word>): (b: seq<Byte>)
    ensures |b| == 2 * |ws|
  {
    if ws == [] then [] else Bytes(ws[..|ws| - 1]) + WordBytes(ws[|ws| - 1])
  }

  function Zeros(n: nat): seq<Byte> {
    seq(n, i => 0)
  }

  /** Each word with a colon before it. */
  function Tail(ws: seq<Word>): string {
    if ws == [] then "" else Tail(ws[..|ws| - 1]) + ":" + Hex(ws[|ws| - 1])
  }

  /** The words with colons between them. */
  function Joined(ws: seq<Word>): string {
    if ws == [] then "" else Hex(ws[0]) + Tail(ws[1..])
  }

  /** Words base .. base + len are zero. */
  predicate ZeroRun(w: seq<Word>, base: nat, len: nat) {
    base + len <= |w| && forall i :: base <= i < base + len ==> w[i] == 0
  }

  datatype Run = Run(base: int, len: int)  // base -1 for none

  /** The leftmost of the longest runs of at least two zero words, if there is one. */
  ghost predicate IsBest(w: seq<Word>, best: Run) {
    if best.base == -1 then
      forall b: nat, l: nat :: l >= 2 ==> !ZeroRun(w, b, l)
    else
      && best.base >= 0 && best.len >= 2 && ZeroRun(w, best.base, best.len)
      && forall b: nat, l: nat :: ZeroRun(w, b, l) ==> l < best.len || (l == best.len && b >= best.base)
  }

  lemma BestIsUnique(w: seq<Word>, p: Run, q: Run)
    requires IsBest(w, p) && IsBest(w, q)
    ensures p.base == q.base && (p.base != -1 ==> p.len == q.len)
  {
    if p.base != -1 {
      assert q.base != -1;
      assert ZeroRun(w, p.base, p.len) && ZeroRun(w, q.base, q.len);
    }
  }

  /** The last 32 bits are written as an IPv4 address: the run is followed by them, or
      by ffff and them. */
  predicate Embeds4(w: seq<Word>, best: Run)
    requires |w| == 8
  {
    best.base == 0 && (best.len == 6 || (best.len == 5 && w[5] == 0xffff))
  }

  /** The text of an address, given the run that "::" stands for. */
  function Text6(w: seq<Word>, best: Run): string
    requires |w| == 8 && (best.base == -1 || (0 <= best.base && 2 <= best.len && best.base + best.len <= 8))
  {
    if best.base == -1 then Joined(w)
    else if Embeds4(w, best) then
      "::" + (if best.len == 5 then "ffff:" else "") + Text4(Bytes(w)[12..])
    else
      Joined(w[..best.base]) + "::" + Joined(w[best.base + best.len..])
  }

  /** inet_pton6 after its loop: flush the last word, then make room at the "::". */
  function Finish6(out: seq<Byte>, colon: Option<nat>, seen: nat, val: Word): (r: Option<seq<Byte>>)
    requires |out| <= 16 && (colon.Some? ==> colon.value <= |out|)
    ensures r.Some? ==> |r.value| == 16
  {
    if seen > 0 && |out| + 2 > 16 then None
    else
      var full := if seen > 0 then out + WordBytes(val) else out;
      match colon
      case None => if |full| == 16 then Some(full) else None
      case Some(c) => if |full| == 16 then None else Some(full[..c] + Zeros(16 - |full|) + full[c..])
  }

  /** Digits seen so far and the value they can have. */
  predicate Fits(seen: nat, val: int) {
    && seen <= 4 && 0 <= val < 0x1_0000
    && (seen <= 3 ==> val < 4096) && (seen <= 2 ==> val < 256) && (seen <= 1 ==> val < 16) && (seen == 0 ==> val == 0)
  }

  /** The loop of inet_pton6 on the text s that is left, tok being what follows the
      last colon: the bytes written, where "::" was seen, and the digits and the value
      of the current word. */
  function Scan6(s: string, tok: string, out: seq<Byte>, colon: Option<nat>, seen: nat, val: Word)
    : (r: Option<seq<Byte>>)
    requires |out| <= 16 && (colon.Some? ==> colon.value <= |out|)
    requires Fits(seen, val)
    ensures r.Some? ==> |r.value| == 16
    decreases |s|
  {
    if s == [] then Finish6(out, colon, seen, val)
    else if HexValue(s[0]).Some? then
      if seen + 1 > 4 then None else Scan6(s[1..], tok, out, colon, seen + 1, val * 16 + HexValue(s[0]).value)
    else if s[0] == ':' then
      if seen == 0 then
        if colon.Some? then None else Scan6(s[1..], s[1..], out, Some(|out|), 0, val)
      else if s[1..] == [] then None
      else if |out| + 2 > 16 then None
      else Scan6(s[1..], s[1..], out + WordBytes(val), colon, 0, 0)
    else if s[0] == '.' && |out| + 4 <= 16 then
      match Parse4(tok)
      case Some(b) => Finish6(out + b, colon, 0, val)
      case None => None
    else None
  }

  function Parse6(src: string): (r: Option<seq<Byte>>)
    ensures r.Some? ==> |r.value| == 16
  {
    if src != [] && src[0] == ':' then
      if |src| >= 2 && src[1] == ':' then Scan6(src[1..], src[1..], [], None, 0, 0) else None
    else
      Scan6(src, src, [], None, 0, 0)
  }

  // ---------- Words and their bytes ----------

  lemma NoDigits()
    ensures Fits(0, 0)
  {
  }

  lemma HexGrows(v: Word)
    ensures Fits(|Hex(v)|, v)
    ensures v < 16 ==> Hex(v) == [DigitChar(v)]
    ensures v >= 16 ==> Hex(v) == Hex(v / 16) + [DigitChar(v % 16)]
  {
  }

  lemma BytesSnoc(ws: seq<Word>, v: Word)
    ensures Bytes(ws + [v]) == Bytes(ws) + WordBytes(v)
  {
    assert (ws + [v])[..|ws|] == ws;
  }

  lemma {:induction false} BytesConcat(a: seq<Word>, b: seq<Word>)
    ensures Bytes(a + b) == Bytes(a) + Bytes(b)
    decreases |b|
  {
    hide Bytes;
    if b == [] {
      assert a + b == a;
    } else {
      var k := |b| - 1;
      BytesConcat(a, b[..k]);
      BytesSnoc(a + b[..k], b[k]);
      BytesSnoc(b[..k], b[k]);
      assert a + b[..k] + [b[k]] == a + b;
      assert b[..k] + [b[k]] == b;
    }
  }

  lemma {:induction false} BytesOfZeros(w: seq<Word>)
    requires ZeroRun(w, 0, |w|)
    ensures Bytes(w) == Zeros(2 * |w|)
  {
    if w != [] {
      BytesOfZeros(w[..|w| - 1]);
    }
  }

  lemma BytesAround(w: seq<Word>, base: nat, len: nat)
    requires |w| == 8 && ZeroRun(w, base, len)
    ensures Bytes(w) == Bytes(w[..base]) + Zeros(2 * len) + Bytes(w[base + len..])
  {
    hide Bytes;
    BytesConcat(w[..base], w[base..base + len]);
    BytesConcat(w[..base + len], w[base + len..]);
    BytesOfZeros(w[base..base + len]);
    assert w[..base] + w[base..base + len] == w[..base + len];
    assert w[..base + len] + w[base + len..] == w;
  }

  // ---------- An embedded IPv4 address ----------

  predicate Digits(t: string) {
    forall i :: 0 <= i < |t| ==> IsDigit(t[i])
  }

  lemma {:induction false} DecDigits(n: nat)
    ensures Digits(Dec(n))
  {
    if n >= 10 {
      DecDigits(n / 10);
    }
  }

  /** Up to the first dot the octet looks like a word; there the whole quad is parsed. */
  lemma {:induction false} ScanToDot(t: string, rest: string, tok: string, out: seq<Byte>, colon: Option<nat>,
          seen: nat, val: Word, b: seq<Byte>)
    requires Digits(t) && seen + |t| <= 3 && |out| + 4 <= 16 && (colon.Some? ==> colon.value <= |out|)
    requires Fits(seen, val)
    requires |b| == 4 && Parse4(tok) == Some(b)
    ensures Scan6(t + ("." + rest), tok, out, colon, seen, val) == Finish6(out + b, colon, 0, 0)
    decreases |t|
  {
    if t == [] {
      assert t + ("." + rest) == "." + rest;
    } else {
      ScanToDot(t[1..], rest, tok, out, colon, seen + 1, val * 16 + HexValue(t[0]).value, b);
      assert (t + ("." + rest))[1..] == t[1..] + ("." + rest);
    }
  }

  /** What follows the first dot of a quad. */
  function AfterFirst(b: seq<Byte>): string
    requires |b| == 4
  {
    Dec(b[1]) + "." + Dec(b[2]) + "." + Dec(b[3])
  }

  lemma Text4Starts(b: seq<Byte>)
    requires |b| == 4
    ensures Text4(b) == Dec(b[0]) + ("." + AfterFirst(b))
  {
    hide Dec;
    var rest := AfterFirst(b);
    DottedSnoc([], b[0]);
    DottedSnoc([b[0]], b[1]);
    DottedSnoc([b[0], b[1]], b[2]);
    assert [] + [b[0]] == [b[0]] && [b[0]] + [b[1]] == [b[0], b[1]] && [b[0], b[1]] + [b[2]] == b[..3];
    hide Dotted;
    assert Text4(b) == Dec(b[0]) + ("." + rest);
  }

  lemma FirstOctet(b: seq<Byte>)
    requires |b| == 4
    ensures Digits(Dec(b[0])) && |Dec(b[0])| <= 3 && Parse4(Text4(b)) == Some(b)
  {
    hide *;
    Parse4Inverse(Text4(b), b);
    DecDigits(b[0]);
  }

  lemma QuadScans(b: seq<Byte>, out: seq<Byte>, colon: Option<nat>)
    requires |b| == 4 && |out| + 4 <= 16 && (colon.Some? ==> colon.value <= |out|)
    ensures Fits(0, 0) && Scan6(Text4(b), Text4(b), out, colon, 0, 0) == Finish6(out + b, colon, 0, 0)
  {
    hide *;
    NoDigits();
    Text4Starts(b);
    FirstOctet(b);
    ScanToDot(Dec(b[0]), AfterFirst(b), Text4(b), out, colon, 0, 0, b);
  }

  /** The bytes of an address that embeds a quad. */
  lemma QuadBytes(w: seq<Word>, n: nat)
    requires |w| == 8 && n <= 6 && ZeroRun(w, 0, n)
    ensures Bytes(w) == Zeros(2 * n) + (Bytes(w[n..6]) + Bytes(w)[12..])
  {
    hide Bytes;
    BytesAround(w, 0, n);
    BytesConcat(w[n..6], w[6..]);
    assert w[n..6] + w[6..] == w[n..];
    JoinedNothing();
    assert w[..0] == [];
  }

  lemma JoinedNothing()
    ensures Joined([]) == "" && Bytes([]) == []
  {
  }

  lemma Ffff()
    ensures Hex(0xffff) == "ffff"
  {
    assert Hex(0xf) == "f" && Hex(0xff) == "ff" && Hex(0xfff) == "fff";
  }

  // ---------- What the texts are made of ----------

  predicate AddressChar(c: char) {
    HexValue(c).Some? || c == ':' || c == '.'
  }

  predicate AddressText(s: string, n: nat) {
    |s| <= n && forall i :: 0 <= i < |s| ==> AddressChar(s[i])
  }

  lemma {:induction false} HexText(v: Word)
    ensures AddressText(Hex(v), 4)
  {
    if v >= 16 {
      HexText(v / 16);
    }
  }

  lemma {:induction false} DecText(v: nat)
    requires v < 1000
    ensures AddressText(Dec(v), 3)
  {
    if v >= 10 {
      DecText(v / 10);
    }
  }

  lemma {:induction false} TailText(ws: seq<Word>)
    ensures AddressText(Tail(ws), 5 * |ws|)
  {
    if ws != [] {
      TailText(ws[..|ws| - 1]);
      HexText(ws[|ws| - 1]);
    }
  }

  lemma JoinedText(ws: seq<Word>)
    ensures AddressText(Joined(ws), if ws == [] then 0 else 5 * |ws| - 1)
  {
    if ws != [] {
      HexText(ws[0]);
      TailText(ws[1..]);
    }
  }

  lemma {:induction false} DottedText(b: seq<Byte>)
    ensures AddressText(Dotted(b), 4 * |b|)
  {
    if b != [] {
      DottedText(b[..|b| - 1]);
      DecText(b[|b| - 1]);
    }
  }

  /** A quad fits the 16 characters, an IPv6 address the 46 that inet.c reserves. */
  lemma Text4Fits(b: seq<Byte>)
    requires |b| == 4
    ensures AddressText(Text4(b), 15)
  {
    DottedText(b[..3]);
    DecText(b[3]);
  }

  lemma Text6Fits(w: seq<Word>, best: Run)
    requires |w| == 8 && (best.base == -1 || (0 <= best.base && 2 <= best.len && best.base + best.len <= 8))
    ensures AddressText(Text6(w, best), 45)
  {
    hide Joined, Text4, Bytes;
    if best.base == -1 {
      JoinedText(w);
    } else if Embeds4(w, best) {
      Text4Fits(Bytes(w)[12..]);
    } else {
      JoinedText(w[..best.base]);
      JoinedText(w[best.base + best.len..]);
    }
  }

  // ---------- Which texts these are ----------

  lemma RunIs(w: seq<Word>, best: Run, n: nat)
    requires |w| == 8 && IsBest(w, best) && 5 <= n <= 7 && ZeroRun(w, 0, n) && w[n] != 0
    ensures best.base == 0 && best.len == n
  {
    assert best.base != -1;
    assert ZeroRun(w, best.base, best.len) && best.len >= n;
  }

  /** Every address that maps an IPv4 address is printed with that one as its tail. */
  lemma MappedText(w: seq<Word>, best: Run, q: seq<Byte>)
    requires |w| == 8 && IsBest(w, best) && |q| == 4
    requires ZeroRun(w, 0, 5) && w[5] == 0xffff && WordBytes(w[6]) + WordBytes(w[7]) == q
    ensures Text6(w, best) == "::ffff:" + Text4(q)
  {
    RunIs(w, best, 5);
    TailBytes(w, q);
    hide Text4, Bytes;
    assert "::" + "ffff:" + Text4(q) == "::ffff:" + Text4(q);
  }

  /** And every compatible one, but for those below 65536. */
  lemma CompatibleText(w: seq<Word>, best: Run, q: seq<Byte>)
    requires |w| == 8 && IsBest(w, best) && |q| == 4
    requires ZeroRun(w, 0, 6) && w[6] != 0 && WordBytes(w[6]) + WordBytes(w[7]) == q
    ensures Text6(w, best) == "::" + Text4(q)
  {
    RunIs(w, best, 6);
    TailBytes(w, q);
    hide Text4, Bytes;
    assert "::" + "" + Text4(q) == "::" + Text4(q);
  }

  lemma TailBytes(w: seq<Word>, q: seq<Byte>)
    requires |w| == 8 && |q| == 4 && WordBytes(w[6]) + WordBytes(w[7]) == q
    ensures Bytes(w)[12..] == q
  {
    assert Bytes(w) == Bytes(w[..7]) + WordBytes(w[7]) && Bytes(w[..7]) == Bytes(w[..7][..6]) + WordBytes(w[..7][6]);
  }

  /** A group as it should be printed: no upper case, no zeros in front. */
  predicate Plain(g: string) {
    && g != "" && (forall i :: 0 <= i < |g| ==> '0' <= g[i] <= '9' || 'a' <= g[i] <= 'f')
    && (|g| > 1 ==> g[0] != '0')
  }

  lemma {:induction false} HexIsPlain(v: nat)
    ensures Plain(Hex(v)) && (v > 0 ==> Hex(v)[0] != '0')
  {
    if v >= 16 {
      HexIsPlain(v / 16);
    }
  }

  /** Mapped, or compatible from 65536 on. */
  predicate HasQuad(w: seq<Word>)
    requires |w| == 8
  {
    ZeroRun(w, 0, 5) && (w[5] == 0xffff || (w[5] == 0 && w[6] != 0))
  }

  /** No other addresses have a dot in their text. */
  lemma DottedExactly(w: seq<Word>, best: Run)
    requires |w| == 8 && IsBest(w, best)
    ensures '.' in Text6(w, best) <==>
              ZeroRun(w, 0, 5) && (w[5] == 0xffff || (w[5] == 0 && w[6] != 0))
  {
    if HasQuad(w) {
      QuadHasDot(w, best);
    } else {
      NoQuadNoDot(w, best);
    }
  }

  lemma QuadHasDot(w: seq<Word>, best: Run)
    requires |w| == 8 && IsBest(w, best) && HasQuad(w)
    ensures '.' in Text6(w, best)
  {
    hide IsBest, Text4, Bytes;
    RunIs(w, best, if w[5] == 0 then 6 else 5);
    DotInQuad(Bytes(w)[12..]);
  }

  lemma NotEmbedded(w: seq<Word>, best: Run)
    requires |w| == 8 && IsBest(w, best) && !HasQuad(w)
    ensures best.base != -1 ==> !Embeds4(w, best)
  {
    assert best.base != -1 ==> ZeroRun(w, best.base, best.len);
    if best.base == 0 && best.len == 6 {
      NotLonger(w, best, 6);
    }
  }

  lemma NoQuadNoDot(w: seq<Word>, best: Run)
    requires |w| == 8 && IsBest(w, best) && !HasQuad(w)
    ensures '.' !in Text6(w, best)
  {
    NotEmbedded(w, best);
    BestFits(w, best);
    hide IsBest, Joined, Text4, Bytes, Embeds4;
    if best.base == -1 {
      NoDotJoined(w);
    } else {
      NoDotJoined(w[..best.base]);
      NoDotJoined(w[best.base + best.len..]);
    }
  }

  lemma BestFits(w: seq<Word>, best: Run)
    requires IsBest(w, best)
    ensures best.base == -1 || (0 <= best.base && 2 <= best.len && best.base + best.len <= |w|)
  {
  }

  lemma NotLonger(w: seq<Word>, best: Run, n: nat)
    requires |w| == 8 && IsBest(w, best) && best.base == 0 && best.len == n < 8
    ensures w[n] != 0
  {
    assert !ZeroRun(w, 0, n + 1);
  }

  lemma DotInQuad(q: seq<Byte>)
    requires |q| == 4
    ensures '.' in Text4(q)
  {
    hide Dec;
    Text4Starts(q);
    hide Text4;
    assert (Dec(q[0]) + ("." + AfterFirst(q)))[|Dec(q[0])|] == '.';
  }

  lemma NoDotJoined(ws: seq<Word>)
    ensures '.' !in Joined(ws)
  {
    hide Hex, Tail;
    if ws != [] {
      HexIsPlain(ws[0]);
      NoDotTail(ws[1..]);
    }
  }

  lemma {:induction false} NoDotTail(ws: seq<Word>)
    ensures '.' !in Tail(ws)
  {
    hide Hex;
    if ws != [] {
      NoDotTail(ws[..|ws| - 1]);
      HexIsPlain(ws[|ws| - 1]);
    }
  }

  // ---------- Compression ----------

  /** Groups with colons between them, from the first on. */
  function Groups(ws: seq<Word>): string {
    if ws == [] then "" else if |ws| == 1 then Hex(ws[0]) else Hex(ws[0]) + ":" + Groups(ws[1..])
  }

  lemma {:induction false} TailFirst(ws: seq<Word>)
    requires ws != []
    ensures Tail(ws) == ":" + Hex(ws[0]) + Tail(ws[1..])
  {
    hide Hex;
    var k := |ws| - 1;
    if k > 0 {
      TailFirst(ws[..k]);
      assert ws[..k][1..] == ws[1..][..k - 1] && ws[1..][k - 1] == ws[k];
    } else {
      assert ws[..0] == [] && ws[1..] == [];
      assert Tail([]) == "";
    }
  }

  lemma {:induction false} JoinedIsGroups(ws: seq<Word>)
    ensures Joined(ws) == Groups(ws)
  {
    hide Hex;
    if |ws| > 1 {
      JoinedIsGroups(ws[1..]);
      TailFirst(ws[1..]);
      assert Joined(ws) == Hex(ws[0]) + (":" + Hex(ws[1]) + Tail(ws[2..]));
    }
  }

  /** An address that is not printed with a quad has its longest run of zero words, the
      first of those of that length, replaced by "::" if it is longer than one word. */
  lemma CompressedText(w: seq<Word>, best: Run, base: nat, len: nat)
    requires |w| == 8 && IsBest(w, best) && len >= 2 && ZeroRun(w, base, len)
    requires forall b: nat, l: nat :: ZeroRun(w, b, l) ==> l < len || (l == len && b >= base)
    requires !HasQuad(w)
    ensures Text6(w, best) == Groups(w[..base]) + "::" + Groups(w[base + len..])
  {
    assert best.base != -1 && ZeroRun(w, best.base, best.len);
    assert best == Run(base, len);
    if base == 0 && len == 6 {
      NotLonger(w, best, 6);
    }
    assert !Embeds4(w, best);
    JoinedIsGroups(w[..base]);
    JoinedIsGroups(w[base + len..]);
  }

  lemma RunHasPair(w: seq<Word>, best: Run)
    requires |w| == 8 && IsBest(w, best)
    ensures best.base == -1 || (0 <= best.base < 7 && w[best.base] == 0 && w[best.base + 1] == 0)
  {
    assert best.base != -1 ==> ZeroRun(w, best.base, best.len);
  }

  lemma UncompressedText(w: seq<Word>, best: Run)
    requires |w| == 8 && IsBest(w, best) && forall i :: 0 <= i < 7 ==> w[i] != 0 || w[i + 1] != 0
    ensures Text6(w, best) == Groups(w)
  {
    hide IsBest, Joined, Groups;
    RunHasPair(w, best);
    JoinedIsGroups(w);
  }
}
