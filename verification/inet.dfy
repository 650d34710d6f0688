/** inet.c: printing and parsing addresses in place. */
module Inet {
  import opened Wrappers
  import opened InetText
  import InetGrammar

  datatype Status = Ok | NoSpace | Invalid  // 0, UV_ENOSPC and UV_EINVAL

  const NUL: char := 0 as char

  /** What copying s into a buffer of n characters leaves there: s and its terminator,
      or as much as fits with one. */
  function Copied(s: string, n: nat): string {
    if |s| < n then s + [NUL] else if n == 0 then "" else s[..n - 1] + [NUL]
  }

  /** The characters was with t written over them from index at. */
  ghost function Over(was: string, at: nat, t: string): string
    requires at + |t| <= |was|
  {
    was[..at] + t + was[at + |t|..]
  }

  lemma OverSnoc(was: string, at: nat, t: string, c: char)
    requires at + |t| < |was|
    ensures |Over(was, at, t)| == |was| && Over(was, at, t)[at + |t| := c] == Over(was, at, t + [c])
  {
  }

  lemma OverLast(was: string, at: nat, t: string, c: char)
    requires t != [] && at + |t| <= |was|
    ensures |Over(was, at, t)| == |was|
    ensures Over(was, at, t)[at + |t| - 1 := c] == Over(was, at, t[..|t| - 1] + [c])
  {
  }

  lemma OverNothing(was: string, at: nat)
    requires at <= |was|
    ensures Over(was, at, "") == was
  {
  }

  lemma CopiedCases(s: string, n: nat)
    ensures n == 0 ==> Copied(s, n) == ""
    ensures |s| < n ==> Copied(s, n) == s + [NUL]
    ensures 0 < n <= |s| ==> Copied(s, n) == s[..n - 1] + [NUL]
  {
  }

  /** uv__strscpy into d from index at, for texts shorter than SSIZE_MAX: the length of the
      text, or None for UV_E2BIG. With no room at all nothing is written and 0 returned. */
  method StrScpy(d: array<char>, at: nat, s: string, n: nat) returns (length: Option<nat>)
    requires at + n <= d.Length && (forall k :: 0 <= k < |s| ==> s[k] != NUL)
    modifies d
    ensures length == if |s| < n then Some(|s|) else if n == 0 then Some(0) else None
    ensures |Copied(s, n)| <= n && d[..] == Over(old(d[..]), at, Copied(s, n))
  {
    hide Over, Copied;
    var i := 0;
    ghost var was := d[..];
    OverNothing(was, at);
    CopiedCases(s, n);
    while i < n
      invariant 0 <= i <= n && i <= |s| && d[..] == Over(was, at, s[..i])
    {
      d[at + i] := if i < |s| then s[i] else NUL;
      OverSnoc(was, at, s[..i], d[at + i]);
      if d[at + i] == NUL {
        assert s[..i] == s;
        return Some(i);
      }
      assert s[..i] + [s[i]] == s[..i + 1];
      i := i + 1;
    }
    if i == 0 {
      return Some(0);
    }
    OverLast(was, at, s[..i], NUL);
    i := i - 1;
    d[at + i] := NUL;
    assert s[..i + 1][..i] == s[..i];
    return None;
  }

  /** strlen of the text at index at. */
  method StrLen(d: array<char>, at: nat, ghost s: string) returns (n: nat)
    requires at + |s| < d.Length && d[at + |s|] == NUL
    requires forall k :: 0 <= k < |s| ==> s[k] != NUL && d[at + k] == s[k]
    ensures n == |s|
  {
    n := 0;
    while d[at + n] != NUL
      invariant n <= |s| && (n < |s| ==> d[at + n] == s[n])
      decreases |s| - n
    {
      n := n + 1;
    }
  }

  /** inet_ntop4, into dst from index at. */
  method Ntop4(src: seq<Byte>, dst: array<char>, at: nat, size: nat) returns (status: Status)
    requires |src| == 4 && at + size <= dst.Length
    modifies dst
    ensures status == (if |Text4(src)| < size then Ok else NoSpace)
    ensures status == Ok ==> dst[..] == old(dst[..at]) + Text4(src) + [NUL] + old(dst[at + |Text4(src)| + 1..])
    ensures status != Ok ==> dst[..] == old(dst[..])
  {
    hide Dec, Text4;
    Text4Fits(src);
    var tmp := Dec(src[0]) + "." + Dec(src[1]) + "." + Dec(src[2]) + "." + Dec(src[3]);
    QuadText(src);
    var l := |tmp|;
    if l <= 0 || l >= size {
      return NoSpace;
    }
    var _ := StrScpy(dst, at, tmp, size);
    assert old(dst[..at]) + (tmp + [NUL]) + old(dst[at + |tmp| + 1..]) == old(dst[..at]) + tmp + [NUL] + old(dst[at + |tmp| + 1..]);
    return Ok;
  }

  lemma QuadText(b: seq<Byte>)
    requires |b| == 4
    ensures Text4(b) == Dec(b[0]) + "." + Dec(b[1]) + "." + Dec(b[2]) + "." + Dec(b[3])
  {
    hide Dec;
    DottedSnoc([], b[0]);
    DottedSnoc([b[0]], b[1]);
    DottedSnoc([b[0], b[1]], b[2]);
    assert [] + [b[0]] == [b[0]] && [b[0]] + [b[1]] == [b[0], b[1]] && [b[0], b[1]] + [b[2]] == b[..3];
  }

  function Join(high: int, low: int): int {
    high * 256 + low
  }

  /** The bytes two by two. */
  function Words(src: seq<Byte>): (w: seq<Word>)
    requires |src| == 16
    ensures |w| == 8
  {
    seq(8, i requires 0 <= i < 8 => Join(src[2 * i], src[2 * i + 1]))
  }

  lemma JoinSplits(high: Byte, low: Byte)
    ensures 0 <= Join(high, low) < 0x1_0000 && WordBytes(Join(high, low)) == [high, low]
  {
  }

  lemma {:induction false} WordsBytes(src: seq<Byte>, n: nat)
    requires |src| == 16 && n <= 8
    ensures Bytes(Words(src)[..n]) == src[..2 * n]
  {
    hide *;
    var w := Words(src);
    if n == 0 {
      JoinedNothing();
      assert w[..0] == [] && src[..0] == [];
    } else {
      var m := n - 1;
      WordOf(src, m);
      WordsBytes(src, m);
      BytesSnoc(w[..m], w[m]);
      assert w[..m] + [w[m]] == w[..n];
      TwoMore(src, 2 * m);
    }
  }

  lemma WordOf(src: seq<Byte>, k: nat)
    requires |src| == 16 && k < 8
    ensures WordBytes(Words(src)[k]) == [src[2 * k], src[2 * k + 1]]
  {
    JoinSplits(src[2 * k], src[2 * k + 1]);
  }

  lemma TwoMore(src: seq<Byte>, k: nat)
    requires k + 2 <= |src|
    ensures src[..k] + [src[k], src[k + 1]] == src[..k + 2]
  {
  }

  /** The first loop of inet_ntop6. */
  method LoadWords(src: seq<Byte>) returns (words: array<Word>)
    requires |src| == 16
    ensures fresh(words) && words.Length == 8
    ensures forall k :: 0 <= k < 8 ==> words[k] == Words(src)[k]
  {
    words := new Word[8](_ => 0);
    for i := 0 to 16
      invariant forall k: nat :: k < 8 ==>
        words[k] == Join(if 2 * k < i then src[2 * k] else 0, if 2 * k + 1 < i then src[2 * k + 1] else 0)
    {
      // the source ors the byte into the word, whose bits there are clear
      words[i / 2] := words[i / 2] + (if i % 2 == 0 then Join(src[i], 0) else Join(0, src[i]));
    }
  }

  /** The run at b of length l does not beat best. */
  predicate NoBetter(best: Run, b: int, l: int) {
    best.base != -1 && (l < best.len || (l == best.len && b >= best.base))
  }

  /** The second loop of inet_ntop6 and the two statements after it. */
  method FindBest(w: seq<Word>) returns (best: Run)
    requires |w| == 8
    ensures IsBest(w, best)
  {
    best := Run(-1, 0);
    var cur := Run(-1, 0);
    for i := 0 to 8
      invariant cur.base == -1 ==> i == 0 || w[i - 1] != 0
      invariant cur.base != -1 ==> 0 <= cur.base < i && cur.len == i - cur.base && ZeroRun(w, cur.base, cur.len)
      invariant cur.base > 0 ==> w[cur.base - 1] != 0
      invariant best.base != -1 ==>
        0 <= best.base && best.len >= 1 && ZeroRun(w, best.base, best.len)
        && best.base + best.len <= if cur.base == -1 then i else cur.base
      invariant forall b: nat, l: nat | l >= 1 && ZeroRun(w, b, l) && b + l <= i && (cur.base == -1 || b < cur.base) ::
        NoBetter(best, b, l)
    {
      if w[i] == 0 {
        if cur.base == -1 {
          cur := Run(i, 1);
        } else {
          cur := cur.(len := cur.len + 1);
        }
      } else {
        if cur.base != -1 {
          if best.base == -1 || cur.len > best.len {
            best := cur;
          }
          cur := cur.(base := -1);
        }
      }
    }
    if cur.base != -1 {
      if best.base == -1 || cur.len > best.len {
        best := cur;
      }
    }
    if best.base != -1 && best.len < 2 {
      best := best.(base := -1);
    }
  }

  /** What inet_ntop6 has written before word i. */
  function Partial(w: seq<Word>, best: Run, i: nat): string
    requires |w| == 8 && i <= 8 && Proper(best)
  {
    if best.base == -1 || i <= best.base then Joined(w[..i])
    else if i <= best.base + best.len then Joined(w[..best.base]) + ":"
    else Joined(w[..best.base]) + "::" + Joined(w[best.base + best.len..i])
  }

  predicate Proper(best: Run) {
    best.base == -1 || (0 <= best.base && 2 <= best.len && best.base + best.len <= 8)
  }

  predicate InRun(best: Run, i: nat) {
    best.base != -1 && best.base <= i < best.base + best.len
  }

  lemma JoinedSnoc(ws: seq<Word>, x: Word)
    ensures Joined(ws + [x]) == Joined(ws) + (if ws == [] then "" else ":") + Hex(x)
  {
    hide Hex;
    if ws != [] {
      assert (ws + [x])[1..] == ws[1..] + [x];
      assert (ws[1..] + [x])[..|ws| - 1] == ws[1..];
    }
  }

  lemma PartialStarts(w: seq<Word>, best: Run)
    requires |w| == 8 && Proper(best)
    ensures Partial(w, best, 0) == ""
  {
  }

  lemma JoinedFrom(w: seq<Word>, from: nat, i: nat)
    requires from <= i < |w|
    ensures Joined(w[from..i + 1]) == Joined(w[from..i]) + (if from == i then "" else ":") + Hex(w[i])
  {
    hide Joined, Hex;
    JoinedSnoc(w[from..i], w[i]);
    assert w[from..i] + [w[i]] == w[from..i + 1];
  }

  lemma PartialBefore(w: seq<Word>, best: Run, i: nat)
    requires |w| == 8 && i < 8 && Proper(best) && (best.base == -1 || i < best.base)
    ensures Partial(w, best, i + 1) == Partial(w, best, i) + (if i != 0 then ":" else "") + Hex(w[i])
  {
    hide Joined, Hex;
    JoinedFrom(w, 0, i);
    assert w[..i] == w[0..i] && w[..i + 1] == w[0..i + 1];
  }

  lemma PartialBehind(w: seq<Word>, best: Run, i: nat)
    requires |w| == 8 && i < 8 && Proper(best) && best.base != -1 && best.base + best.len <= i
    ensures Partial(w, best, i + 1) == Partial(w, best, i) + ":" + Hex(w[i])
  {
    hide Joined, Hex;
    var from := best.base + best.len;
    var head, h := Joined(w[..best.base]), Hex(w[i]);
    JoinedFrom(w, from, i);
    if from == i {
      assert w[from..i] == [];
      JoinedNothing();
      assert head + "::" + ("" + "" + h) == head + ":" + ":" + h;
    } else {
      var middle := Joined(w[from..i]);
      assert head + "::" + (middle + ":" + h) == head + "::" + middle + ":" + h;
    }
  }

  lemma PartialWithin(w: seq<Word>, best: Run, i: nat)
    requires |w| == 8 && i < 8 && Proper(best) && InRun(best, i)
    ensures Partial(w, best, i + 1) == Partial(w, best, i) + if i == best.base then ":" else ""
  {
    hide Joined;
  }

  lemma PartialStep(w: seq<Word>, best: Run, i: nat)
    requires |w| == 8 && i < 8 && Proper(best)
    ensures InRun(best, i) ==> Partial(w, best, i + 1) == Partial(w, best, i) + if i == best.base then ":" else ""
    ensures !InRun(best, i) ==> Partial(w, best, i + 1) == Partial(w, best, i) + (if i != 0 then ":" else "") + Hex(w[i])
  {
    hide Partial, Hex;
    if InRun(best, i) {
      PartialWithin(w, best, i);
    } else if best.base == -1 || i < best.base {
      PartialBefore(w, best, i);
    } else {
      PartialBehind(w, best, i);
    }
  }

  lemma PartialEnds(w: seq<Word>, best: Run)
    requires |w| == 8 && Proper(best)
    ensures !Embeds4(w, best) ==>
      Text6(w, best) == Partial(w, best, 8) + if best.base != -1 && best.base + best.len == 8 then ":" else ""
    ensures Embeds4(w, best) ==> Text6(w, best) == Partial(w, best, 6) + ":" + Text4(Bytes(w)[12..])
    ensures Embeds4(w, best) ==> |Partial(w, best, 6)| <= 6
  {
    hide Joined, Hex, Text4, Bytes;
    JoinedNothing();
    assert w[..8] == w && w[8..] == [];
    if Embeds4(w, best) && best.len == 5 {
      assert w[5..6] == [] + [w[5]];
      JoinedSnoc([], 0xffff);
      Ffff();
    }
  }

  lemma NoNul(s: string, n: nat)
    requires AddressText(s, n)
    ensures forall k :: 0 <= k < |s| ==> s[k] != NUL
  {
  }

  /** Appending to the text at the start of buf. */
  method Put(buf: array<char>, tp: nat, s: string, ghost text: string) returns (tp': nat)
    requires AddressText(s, 4) && tp == |text| && tp + 5 < buf.Length && buf[..tp] == text
    modifies buf
    ensures tp' == |text + s| && tp' < buf.Length && buf[..tp'] == text + s
  {
    NoNul(s, 4);
    var _ := StrScpy(buf, tp, s, buf.Length - tp);
    tp' := tp + |s|;
  }

  /** The IPv4 part of an IPv6 text. */
  method PutQuad(src: seq<Byte>, buf: array<char>, tp: nat, ghost text: string) returns (tp': nat)
    requires |src| == 4 && tp == |text| && tp + 15 < buf.Length && buf[..tp] == text
    modifies buf
    ensures tp' == |text + Text4(src)| && tp' < buf.Length && buf[..tp'] == text + Text4(src)
  {
    hide Text4;
    Text4Fits(src);
    NoNul(Text4(src), 15);
    var err := Ntop4(src, buf, tp, buf.Length - tp);
    ghost var q := Text4(src);
    assert forall k :: 0 <= k < |q| ==> buf[..][tp + k] == q[k];
    assert buf[..][tp + |q|] == NUL;
    var n := StrLen(buf, tp, q);
    tp' := tp + n;
    assert buf[..tp'] == buf[..][..tp'];
  }

  /** The last loop of inet_ntop6, and the colon after a trailing run. */
  method Format(src: seq<Byte>, w: seq<Word>, best: Run, tmp: array<char>) returns (tp: nat)
    requires |src| == 16 && w == Words(src) && tmp.Length == 46 && Proper(best)
    modifies tmp
    ensures tp == |Text6(w, best)| < 46 && tmp[..tp] == Text6(w, best)
  {
    hide Partial, Text6, Text4, Hex;
    tp := 0;
    ghost var text := "";
    PartialStarts(w, best);
    PartialEnds(w, best);
    WordsBytes(src, 8);
    assert w[..8] == w && src[..16] == src;
    for i := 0 to 8
      invariant tp == |text| <= 5 * i && tmp[..tp] == text
      invariant text == Partial(w, best, i)
      invariant Embeds4(w, best) ==> i <= 6
    {
      PartialStep(w, best, i);
      if InRun(best, i) {
        if i == best.base {
          tp := Put(tmp, tp, ":", text);
          text := text + ":";
        }
        continue;
      }
      if i != 0 {
        tp := Put(tmp, tp, ":", text);
        text := text + ":";
      }
      assert i == 6 && best.base == 0 ==> best.len != 7;  // so the code's case for a run of 7 never applies
      if i == 6 && best.base == 0
         && (best.len == 6 || (best.len == 5 && w[5] == 0xffff)) {
        tp := PutQuad(src[12..], tmp, tp, text);
        text := text + Text4(src[12..]);
        break;
      }
      HexText(w[i]);
      tp := Put(tmp, tp, Hex(w[i]), text);
      text := text + Hex(w[i]);
    }
    if best.base != -1 && best.base + best.len == 8 {
      tp := Put(tmp, tp, ":", text);
    }
  }

  /** inet_ntop6. */
  method Ntop6(src: seq<Byte>, dst: array<char>, size: nat) returns (status: Status, ghost best: Run)
    requires |src| == 16 && size <= dst.Length
    modifies dst
    ensures IsBest(Words(src), best)
    ensures var text := Text6(Words(src), best);
      && status == (if 0 < size <= |text| then NoSpace else Ok)
      && dst[..] == Copied(text, size) + old(dst[|Copied(text, size)|..])
  {
    hide Text6;
    var words := LoadWords(src);
    var w := words[..];
    var run := FindBest(w);
    best := run;
    var tmp := new char[46];
    var tp := Format(src, w, run, tmp);
    assert w == Words(src);
    Text6Fits(w, run);
    NoNul(tmp[..tp], 45);
    var length := StrScpy(dst, 0, tmp[..tp], size);
    status := if length.None? then NoSpace else Ok;
  }

  // ---------- Parsing ----------

  /** inet_pton4, into dst from index at. */
  method Pton4(src: string, dst: array<Byte>, at: nat) returns (status: Status)
    requires at + 4 <= dst.Length
    modifies dst
    ensures status == Ok <==> Parse4(src).Some?
    ensures status != Ok ==> status == Invalid && dst[..] == old(dst[..])
    ensures status == Ok ==> dst[..] == old(dst[..at]) + Parse4(src).value + old(dst[at + 4..])
  {
    var saw, octets, tp, pos := false, 0, 0, 0;
    var tmp := new Byte[4](_ => 0);
    while pos < |src|
      invariant pos <= |src| && tp <= 3 && octets == tp + if saw then 1 else 0
      invariant !saw ==> tmp[tp] == 0
      invariant dst[..] == old(dst[..])
      invariant Parse4(src) == Scan4(tmp[..tp], tmp[tp], saw, src[pos..])
    {
      var ch := src[pos];
      assert src[pos..][1..] == src[pos + 1..];
      pos := pos + 1;
      if IsDigit(ch) {
        var nw: nat := tmp[tp] * 10 + (ch as int - '0' as int);
        if saw && tmp[tp] == 0 {
          return Invalid;
        }
        if nw > 255 {
          return Invalid;
        }
        tmp[tp] := nw;
        if !saw {
          octets := octets + 1;
          if octets > 4 {
            return Invalid;
          }
          saw := true;
        }
      } else if ch == '.' && saw {
        if octets == 4 {
          return Invalid;
        }
        ghost var before, cur := tmp[..tp], tmp[tp];
        tp := tp + 1;
        tmp[tp] := 0;
        assert tmp[..tp] == before + [cur];
        saw := false;
      } else {
        return Invalid;
      }
    }
    if octets < 4 {
      return Invalid;
    }
    assert tmp[..] == tmp[..tp] + [tmp[tp]];
    forall k | 0 <= k < 4 {
      dst[at + k] := tmp[k];
    }
    return Ok;
  }

  /** The last step of inet_pton6: what was written from index c on moves to the end, in
      place and from its last byte. */
  method ShiftToEnd(tmp: array<Byte>, c: nat, tp: nat)
    requires tmp.Length == 16 && c <= tp < 16 && forall k :: tp <= k < 16 ==> tmp[k] == 0
    modifies tmp
    ensures tmp[..] == old(tmp[..c]) + Zeros(16 - tp) + old(tmp[c..tp])
  {
    var n := tp - c;
    for i := 1 to n + 1
      invariant forall k :: 0 <= k < tp - (i - 1) ==> tmp[k] == old(tmp[k])
      invariant forall k :: tp - (i - 1) <= k < 16 - (i - 1) ==> tmp[k] == 0
      invariant forall k :: 16 - (i - 1) <= k < 16 ==> tmp[k] == old(tmp[k - (16 - tp)])
    {
      tmp[16 - i] := tmp[c + n - i];
      tmp[c + n - i] := 0;
    }
  }

  /** Two bytes of a word, high byte first. */
  method PutWord(tmp: array<Byte>, tp: nat, val: Word) returns (tp': nat)
    requires tp + 2 <= tmp.Length
    modifies tmp
    ensures tp' == tp + 2 && tmp[..tp'] == old(tmp[..tp]) + WordBytes(val)
    ensures forall k :: tp' <= k < tmp.Length ==> tmp[k] == old(tmp[k])
  {
    tmp[tp] := val / 256;
    tmp[tp + 1] := val % 256;
    tp' := tp + 2;
  }

  /** inet_pton6 after its loop. */
  method Finish(tmp: array<Byte>, tp0: nat, colonp: Option<nat>, seen: nat, val: Word) returns (status: Status)
    requires tmp.Length == 16 && tp0 <= 16 && (colonp.Some? ==> colonp.value <= tp0)
    requires forall k :: tp0 <= k < 16 ==> tmp[k] == 0
    modifies tmp
    ensures status == if Finish6(old(tmp[..tp0]), colonp, seen, val).Some? then Ok else Invalid
    ensures status == Ok ==> tmp[..] == Finish6(old(tmp[..tp0]), colonp, seen, val).value
  {
    var tp := tp0;
    hide Zeros;
    if seen > 0 {
      if tp + 2 > 16 {
        return Invalid;
      }
      tp := PutWord(tmp, tp, val);
    }
    if colonp.Some? {
      if tp == 16 {
        return Invalid;
      }
      ghost var full := tmp[..tp];
      assert full[..colonp.value] == tmp[..colonp.value] && full[colonp.value..] == tmp[colonp.value..tp];
      ShiftToEnd(tmp, colonp.value, tp);
      tp := 16;
    }
    if tp != 16 {
      return Invalid;
    }
    assert tmp[..16] == tmp[..];
    return Ok;
  }

  /** inet_pton6. */
  method Pton6(src: string, dst: array<Byte>) returns (status: Status)
    requires dst.Length == 16
    modifies dst
    ensures status == if Parse6(src).Some? then Ok else Invalid
    ensures dst[..] == if status == Ok then Parse6(src).value else old(dst[..])
  {
    hide Parse4, Finish6;
    var tmp := new Byte[16](_ => 0);
    var pos, tp, colonp: Option<nat> := 0, 0, None;
    if pos < |src| && src[pos] == ':' {
      pos := pos + 1;
      if pos == |src| || src[pos] != ':' {
        return Invalid;
      }
    }
    var tok, seen, val := pos, 0, 0;
    assert src[0..] == src && tmp[..0] == [];
    while pos < |src|
      invariant tok <= pos <= |src| && tp <= 16 && (colonp.Some? ==> colonp.value <= tp) && Fits(seen, val)
      invariant forall k :: tp <= k < 16 ==> tmp[k] == 0
      invariant dst[..] == old(dst[..])
      invariant Parse6(src) == Scan6(src[pos..], src[tok..], tmp[..tp], colonp, seen, val)
    {
      var ch := src[pos];
      assert src[pos..][1..] == src[pos + 1..];
      pos := pos + 1;
      var pch := HexValue(ch);
      if pch.Some? {
        if seen + 1 > 4 {
          return Invalid;
        }
        val := val * 16 + pch.value;
        seen := seen + 1;
        continue;
      }
      if ch == ':' {
        tok := pos;
        if seen == 0 {
          if colonp.Some? {
            return Invalid;
          }
          colonp := Some(tp);
          continue;
        } else if pos == |src| {
          return Invalid;
        }
        if tp + 2 > 16 {
          return Invalid;
        }
        tp := PutWord(tmp, tp, val);
        seen := 0;
        val := 0;
        continue;
      }
      if ch == '.' && tp + 4 <= 16 {
        ghost var before := tmp[..tp];
        var err := Pton4(src[tok..], tmp, tp);
        if err == Ok {
          tp := tp + 4;
          seen := 0;
          assert tmp[..tp] == before + Parse4(src[tok..]).value;
          pos := |src|;
          assert Parse6(src) == Finish6(tmp[..tp], colonp, seen, val);
          break;
        }
      }
      return Invalid;
    }
    status := Finish(tmp, tp, colonp, seen, val);
    if status == Ok {
      forall k | 0 <= k < 16 {
        dst[k] := tmp[k];
      }
      assert dst[..] == tmp[..];
    }
  }

  /** Where the zone of a scoped address starts: its first '%', or the end. */
  function ZoneAt(s: string): (n: nat)
    ensures n <= |s| && (n < |s| ==> s[n] == '%') && forall k :: 0 <= k < n ==> s[k] != '%'
  {
    if s == [] || s[0] == '%' then 0 else
      var n := ZoneAt(s[1..]);
      assert forall k :: 0 < k <= n ==> s[k] == s[1..][k - 1];
      n + 1
  }

  /** What uv_inet_pton makes of an AF_INET6 text. */
  function ParseScoped(s: string): Option<seq<Byte>> {
    if ZoneAt(s) == |s| then Parse6(s)
    else if ZoneAt(s) > 45 then None
    else Parse6(s[..ZoneAt(s)])
  }

  /** uv_inet_pton for AF_INET6: strchr for '%', and the copy of what is before it. */
  method UvPton6(src: string, dst: array<Byte>) returns (status: Status)
    requires dst.Length == 16
    modifies dst
    ensures status == if ParseScoped(src).Some? then Ok else Invalid
    ensures dst[..] == if status == Ok then ParseScoped(src).value else old(dst[..])
  {
    hide Parse6;
    var p := 0;
    while p < |src| && src[p] != '%'
      invariant p <= |src| && forall k :: 0 <= k < p ==> src[k] != '%'
    {
      p := p + 1;
    }
    var s := src;
    if p < |src| {
      if p > 45 {
        return Invalid;
      }
      s := src[..p];
    }
    status := Pton6(s, dst);
  }

  /** For every address: its text parses back to it. */
  lemma AddressRoundTrip(src: seq<Byte>, best: Run)
    requires |src| == 16 && IsBest(Words(src), best)
    ensures Parse6(Text6(Words(src), best)) == Some(src)
  {
    InetGrammar.RoundTrip6(Words(src), best);
    WordsBytes(src, 8);
    assert Words(src)[..8] == Words(src) && src[..16] == src;
  }

  /** Also with a zone behind it. */
  lemma ScopedRoundTrip(src: seq<Byte>, best: Run, zone: string)
    requires |src| == 16 && IsBest(Words(src), best)
    ensures ParseScoped(Text6(Words(src), best) + "%" + zone) == Some(src)
  {
    hide Parse6, Text6;
    var t := Text6(Words(src), best);
    var s := t + "%" + zone;
    AddressRoundTrip(src, best);
    Text6Fits(Words(src), best);
    assert s[|t|] == '%' && forall k :: 0 <= k < |t| ==> s[k] == t[k];
    assert ZoneAt(s) == |t| && s[..|t|] == t;
  }
}
