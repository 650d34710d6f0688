/** The texts of IPv6 addresses by a grammar, after section 2.2 of RFC 4291, and that
    inet_pton6 accepts exactly these. */
module InetGrammar {
  import opened Wrappers
  import opened InetText

  // ---------- The grammar ----------

  predicate IsHex(g: string) {
    forall i :: 0 <= i < |g| ==> HexValue(g[i]).Some?
  }

  /** One to four hexadecimal digits of either case, leading zeros included. */
  predicate IsGroup(g: string) {
    1 <= |g| <= 4 && IsHex(g)
  }

  function GroupValue(g: string): nat
    requires IsHex(g)
  {
    if g == "" then 0 else GroupValue(g[..|g| - 1]) * 16 + HexValue(g[|g| - 1]).value
  }

  lemma GroupFits(g: string)
    requires IsHex(g) && |g| <= 4
    ensures Fits(|g|, GroupValue(g))
  {
    if |g| > 0 {
      var h := g[..|g| - 1];
      GroupFits(h);
    }
  }

  function GroupWord(g: string): Word
    requires IsGroup(g)
  {
    GroupFits(g);
    GroupValue(g)
  }

  predicate AreGroups(gs: seq<string>) {
    forall i :: 0 <= i < |gs| ==> IsGroup(gs[i])
  }

  function Words(gs: seq<string>): (ws: seq<Word>)
    requires AreGroups(gs)
    ensures |ws| == |gs|
  {
    seq(|gs|, i requires 0 <= i < |gs| => GroupWord(gs[i]))
  }

  /** Groups, perhaps a "::" and more groups, and perhaps a dotted quad at the end; or the
      rest of such a text, behind a colon. */
  datatype Address = Address(left: seq<string>, gap: bool, right: seq<string>, quad: Option<seq<Byte>>)

  /** How many bytes are spelt out. */
  function Size(a: Address): nat {
    2 * |a.left| + 2 * |a.right| + if a.quad.Some? then 4 else 0
  }

  predicate QuadFits(q: Option<seq<Byte>>) {
    q.Some? ==> |q.value| == 4
  }

  /** A rest behind n bytes: with one "::" at most, 16 bytes without one and fewer with. */
  predicate Follows(a: Address, n: nat, gapBefore: bool) {
    && AreGroups(a.left) && AreGroups(a.right) && QuadFits(a.quad)
    && (if a.gap then !gapBefore else a.right == [])
    && (if a.gap || gapBefore then n + Size(a) < 16 else n + Size(a) == 16)
  }

  predicate IsAddress(a: Address) {
    Follows(a, 0, false)
  }

  /** The items with colons between them. */
  function Colons(items: seq<string>): string {
    if items == [] then "" else if |items| == 1 then items[0] else items[0] + ":" + Colons(items[1..])
  }

  function Items(gs: seq<string>, quad: Option<seq<Byte>>): seq<string>
    requires QuadFits(quad)
  {
    gs + if quad.Some? then [Text4(quad.value)] else []
  }

  function RestText(a: Address): string
    requires QuadFits(a.quad)
  {
    if a.gap then (if a.left == [] then "" else Colons(a.left) + ":") + ":" + Colons(Items(a.right, a.quad))
    else Colons(Items(a.left, a.quad))
  }

  function AddressText6(a: Address): string
    requires QuadFits(a.quad)
  {
    if a.gap && a.left == [] then ":" + RestText(a) else RestText(a)
  }

  function QuadOf(quad: Option<seq<Byte>>): seq<Byte> {
    if quad.Some? then quad.value else []
  }

  /** The address: the "::" stands for as many zeros as are missing. */
  function AddressValue(a: Address): seq<Byte>
    requires IsAddress(a)
  {
    Bytes(Words(a.left)) + Zeros(16 - Size(a)) + Bytes(Words(a.right)) + QuadOf(a.quad)
  }

  // ---------- The grammar's texts are accepted ----------

  lemma {:induction false} ScanGroup(g: string, rest: string, tok: string, out: seq<Byte>, colon: Option<nat>)
    requires IsHex(g) && |g| <= 4 && |out| <= 16 && (colon.Some? ==> colon.value <= |out|)
    ensures Fits(0, 0) && Fits(|g|, GroupValue(g))
    ensures Scan6(g + rest, tok, out, colon, 0, 0) == Scan6(rest, tok, out, colon, |g|, GroupValue(g))
    decreases |g|
  {
    hide Scan6, Fits;
    NoDigits();
    GroupFits(g);
    if g == "" {
      assert g + rest == rest;
    } else {
      var k := |g| - 1;
      GroupFits(g[..k]);
      ScanGroup(g[..k], [g[k]] + rest, tok, out, colon);
      assert g + rest == g[..k] + ([g[k]] + rest);
      ScanDigit6(g[k], rest, tok, out, colon, k, GroupValue(g[..k]));
    }
  }

  lemma ScanDigit6(c: char, rest: string, tok: string, out: seq<Byte>, colon: Option<nat>, seen: nat, val: Word)
    requires HexValue(c).Some? && |out| <= 16 && (colon.Some? ==> colon.value <= |out|) && Fits(seen, val) && seen < 4
    ensures Fits(seen + 1, val * 16 + HexValue(c).value)
    ensures Scan6([c] + rest, tok, out, colon, seen, val)
         == Scan6(rest, tok, out, colon, seen + 1, val * 16 + HexValue(c).value)
  {
    assert ([c] + rest)[1..] == rest;
  }

  /** What all the items that are scanned leave: the bytes, and where the gap is. */
  function Scanned(a: Address, out: seq<Byte>): seq<Byte>
    requires AreGroups(a.left) && AreGroups(a.right)
  {
    out + Bytes(Words(a.left)) + Bytes(Words(a.right)) + QuadOf(a.quad)
  }

  function GapAt(a: Address, out: seq<Byte>, colon: Option<nat>): Option<nat> {
    if a.gap then Some(|out| + 2 * |a.left|) else colon
  }

  lemma ScannedSize(a: Address, out: seq<Byte>, colon: Option<nat>)
    requires Follows(a, |out|, colon.Some?) && (colon.Some? ==> colon.value <= |out|)
    ensures |Scanned(a, out)| == |out| + Size(a) <= 16
    ensures GapAt(a, out, colon).Some? ==> GapAt(a, out, colon).value <= |Scanned(a, out)|
  {
    hide Bytes, Words;
  }

  lemma FlushesWord(out: seq<Byte>, colon: Option<nat>, seen: nat, v: Word)
    requires |out| + 2 <= 16 && (colon.Some? ==> colon.value <= |out|) && seen > 0
    ensures Finish6(out, colon, seen, v) == Finish6(out + WordBytes(v), colon, 0, 0)
  {
  }

  lemma FirstWord(gs: seq<string>, out: seq<Byte>)
    requires AreGroups(gs) && gs != []
    ensures AreGroups(gs[1..])
    ensures out + Bytes(Words(gs)) == out + WordBytes(GroupWord(gs[0])) + Bytes(Words(gs[1..]))
  {
    hide Bytes, GroupWord, IsGroup;
    var w := GroupWord(gs[0]);
    assert Words(gs) == [w] + Words(gs[1..]);
    BytesConcat([w], Words(gs[1..]));
    OneWord(w);
  }

  lemma OneWord(w: Word)
    ensures Bytes([w]) == WordBytes(w)
  {
    BytesSnoc([], w);
    assert [] + [w] == [w];
  }

  /** A text that starts with a group: what is behind it. */
  lemma FirstGroup(a: Address)
    requires QuadFits(a.quad) && a.left != []
    ensures var rest := RestText(a.(left := a.left[1..]));
            var last := |a.left| == 1 && !a.gap && a.quad.None?;
            RestText(a) == a.left[0] + if last then "" else ":" + rest
  {
    hide Text4, Colons;
    var rest := a.left[1..];
    if a.gap {
      FirstOfColons(a.left);
      if rest == [] {
        Regroup(a.left[0], "", ":" + Colons(Items(a.right, a.quad)));
      } else {
        Regroup(a.left[0], Colons(rest), ":" + Colons(Items(a.right, a.quad)));
      }
    } else {
      FirstOfColons(Items(a.left, a.quad));
      assert Items(a.left, a.quad)[1..] == Items(rest, a.quad);
      Regroup(a.left[0], Colons(Items(rest, a.quad)), "");
    }
  }

  lemma Regroup(x: string, y: string, z: string)
    ensures (x + ":" + y) + ":" + z == x + (":" + (y + ":" + z))
    ensures x + ":" + y == x + (":" + y)
    ensures x + "" == x
  {
  }

  lemma {:induction false} FirstOfColons(items: seq<string>)
    requires items != []
    ensures Colons(items) == if |items| == 1 then items[0] else items[0] + ":" + Colons(items[1..])
  {
  }

  lemma NotEmptyText(a: Address)
    requires QuadFits(a.quad) && AreGroups(a.left) && AreGroups(a.right)
    ensures RestText(a) == "" ==> a.left == [] && !a.gap && a.quad.None?
  {
    hide Text4;
  }

  lemma FollowsParts(a: Address, n: nat, gapBefore: bool)
    requires Follows(a, n, gapBefore)
    ensures AreGroups(a.left) && AreGroups(a.right) && QuadFits(a.quad) && n + Size(a) <= 16
  {
  }

  /** Scanning a rest leaves its bytes, whatever was scanned before. */
  ghost predicate Scans(a: Address, out: seq<Byte>, colon: Option<nat>)
    requires Follows(a, |out|, colon.Some?) && (colon.Some? ==> colon.value <= |out|)
  {
    NoDigits();
    ScannedSize(a, out, colon);
    Scan6(RestText(a), RestText(a), out, colon, 0, 0) == Finish6(Scanned(a, out), GapAt(a, out, colon), 0, 0)
  }

  lemma GroupCase(a: Address, out: seq<Byte>, colon: Option<nat>)
    requires Follows(a, |out|, colon.Some?) && (colon.Some? ==> colon.value <= |out|) && a.left != []
    ensures var out', b := out + WordBytes(GroupWord(a.left[0])), a.(left := a.left[1..]);
            && Follows(b, |out'|, colon.Some?)
            && ((|a.left| == 1 && !a.gap && a.quad.None?) || Scans(b, out', colon) ==> Scans(a, out, colon))
  {
    hide Scan6, Finish6, RestText, Fits, Text4, Scanned, GapAt, GroupWord;
    GroupScans(a, out, colon);
    RestOfScanned(a, out, colon);
  }

  lemma GapCase(a: Address, out: seq<Byte>, colon: Option<nat>)
    requires Follows(a, |out|, colon.Some?) && (colon.Some? ==> colon.value <= |out|) && a.left == [] && a.gap
    ensures var b := Address(a.right, false, [], a.quad);
            Follows(b, |out|, true) && (Scans(b, out, Some(|out|)) ==> Scans(a, out, colon))
  {
    hide Scan6, Finish6, RestText, Fits, Text4, Bytes, IsGroup;
    GapScans(a, out, colon);
    NothingSpelt();
    assert Scanned(a, out) == Scanned(Address(a.right, false, [], a.quad), out);
  }

  lemma QuadCase(a: Address, out: seq<Byte>, colon: Option<nat>)
    requires Follows(a, |out|, colon.Some?) && (colon.Some? ==> colon.value <= |out|) && a.left == [] && !a.gap
    ensures Scans(a, out, colon)
  {
    NothingSpelt();
    if a.quad.Some? {
      hide Scan6, Finish6, Text4, Bytes;
      QuadScans(a.quad.value, out, colon);
      assert Items([], a.quad) == [Text4(a.quad.value)];
      assert Scanned(a, out) == out + a.quad.value;
    } else {
      hide Finish6, Bytes;
      assert Scanned(a, out) == out;
    }
  }

  lemma {:induction false} RestScans(a: Address, out: seq<Byte>, colon: Option<nat>)
    requires Follows(a, |out|, colon.Some?) && (colon.Some? ==> colon.value <= |out|)
    ensures Scans(a, out, colon)
    decreases |a.left| + |a.right|, a.gap
  {
    hide *;
    FollowsParts(a, |out|, colon.Some?);
    if a.left != [] {
      GroupCase(a, out, colon);
      if !(|a.left| == 1 && !a.gap && a.quad.None?) {
        FirstIsGroup(a.left);
        RestScans(a.(left := a.left[1..]), out + WordBytes(GroupWord(a.left[0])), colon);
      }
    } else if a.gap {
      GapCase(a, out, colon);
      RestScans(Address(a.right, false, [], a.quad), out, Some(|out|));
    } else {
      QuadCase(a, out, colon);
    }
  }

  lemma FirstIsGroup(gs: seq<string>)
    requires AreGroups(gs) && gs != []
    ensures IsGroup(gs[0])
  {
  }

  lemma RestOfScanned(a: Address, out: seq<Byte>, colon: Option<nat>)
    requires Follows(a, |out|, colon.Some?) && a.left != []
    ensures var out', b := out + WordBytes(GroupWord(a.left[0])), a.(left := a.left[1..]);
            && AreGroups(b.left) && Scanned(a, out) == Scanned(b, out') && GapAt(a, out, colon) == GapAt(b, out', colon)
            && (|a.left| == 1 && !a.gap && a.quad.None? ==> Scanned(a, out) == out' && GapAt(a, out, colon) == colon)
  {
    hide GroupWord, IsGroup, Bytes;
    FirstWord(a.left, out);
    NothingSpelt();
  }

  lemma NothingSpelt()
    ensures Words([]) == [] && Bytes([]) == []
  {
  }

  lemma GapScans(a: Address, out: seq<Byte>, colon: Option<nat>)
    requires Follows(a, |out|, colon.Some?) && a.gap && a.left == []
    ensures var b := Address(a.right, false, [], a.quad);
            Scan6(RestText(a), RestText(a), out, colon, 0, 0) == Scan6(RestText(b), RestText(b), out, Some(|out|), 0, 0)
  {
    hide Text4, Finish6;
    var b := Address(a.right, false, [], a.quad);
    assert RestText(a) == ":" + RestText(b);
    assert RestText(a)[1..] == RestText(b);
  }

  lemma GroupScans(a: Address, out: seq<Byte>, colon: Option<nat>)
    requires Follows(a, |out|, colon.Some?) && (colon.Some? ==> colon.value <= |out|) && a.left != []
    ensures var out', b := out + WordBytes(GroupWord(a.left[0])), a.(left := a.left[1..]);
            && |out'| <= 16
            && Follows(b, |out'|, colon.Some?)
            && Scan6(RestText(a), RestText(a), out, colon, 0, 0) ==
               if |a.left| == 1 && !a.gap && a.quad.None? then Finish6(out', colon, 0, 0)
               else Scan6(RestText(b), RestText(b), out', colon, 0, 0)
  {
    var g, b := a.left[0], a.(left := a.left[1..]);
    assert IsGroup(g);
    hide Text4, RestText, Finish6;
    FirstGroup(a);
    NotEmptyText(b);
    if |a.left| == 1 && !a.gap && a.quad.None? {
      ScanGroup(g, "", RestText(a), out, colon);
      assert g + "" == g;
      FlushesWord(out, colon, |g|, GroupWord(g));
    } else {
      var rest := ":" + RestText(b);
      ScanGroup(g, rest, RestText(a), out, colon);
      assert rest[1..] == RestText(b);
    }
  }

  lemma Filled(l: seq<Byte>, r: seq<Byte>, gap: bool)
    requires if gap then |l| + |r| < 16 else |l| + |r| == 16
    ensures Finish6(l + r, if gap then Some(|l|) else None, 0, 0) == Some(l + Zeros(16 - |l| - |r|) + r)
  {
    assert (l + r)[..|l|] == l && (l + r)[|l|..] == r;
    if !gap {
      assert Zeros(0) == [];
      assert l + [] + r == l + r;
    }
  }

  lemma ValueParts(a: Address)
    requires IsAddress(a)
    ensures var l, r := Bytes(Words(a.left)), Bytes(Words(a.right)) + QuadOf(a.quad);
            && |l| == 2 * |a.left| && |l| + |r| == Size(a) && Scanned(a, []) == l + r
            && AddressValue(a) == l + Zeros(16 - Size(a)) + r
  {
    hide Bytes, Words, Zeros;
  }

  lemma FinishedValue(a: Address)
    requires IsAddress(a) && Scans(a, [], None)
    ensures Fits(0, 0) && Scan6(RestText(a), RestText(a), [], None, 0, 0) == Some(AddressValue(a))
  {
    hide Bytes, Words, Zeros, AddressValue, Finish6, Scanned, Scan6, RestText, AreGroups, Fits;
    NoDigits();
    ValueParts(a);
    Filled(Bytes(Words(a.left)), Bytes(Words(a.right)) + QuadOf(a.quad), a.gap);
  }

  /** Every text of the grammar is accepted, as the address that it spells. */
  lemma Sound(a: Address)
    requires IsAddress(a)
    ensures Parse6(AddressText6(a)) == Some(AddressValue(a))
  {
    hide Scan6, RestText, AddressValue, Scans;
    RestScans(a, [], None);
    FinishedValue(a);
    TextStarts(a);
    if a.gap && a.left == [] {
      assert AddressText6(a)[1..] == RestText(a);
    }
  }

  /** Only a gap at the front starts with a colon. */
  lemma TextStarts(a: Address)
    requires AreGroups(a.left) && AreGroups(a.right) && QuadFits(a.quad)
    ensures RestText(a) != "" && RestText(a)[0] == ':' <==> a.gap && a.left == []
    ensures IsAddress(a) ==> RestText(a) != ""
  {
    if a.left != [] {
      assert IsGroup(a.left[0]);
      FirstGroup(a);
      hide RestText, Text4;
    } else if a.gap {
      hide Text4;
    } else if a.quad.Some? {
      QuadStarts(a.quad.value);
    }
  }

  lemma QuadStarts(q: seq<Byte>)
    requires |q| == 4
    ensures Text4(q) != "" && Text4(q)[0] != ':'
  {
    hide Dec, Text4;
    Text4Starts(q);
    DecDigits(q[0]);
  }

  // ---------- Nothing else is accepted ----------

  lemma GroupSnoc(g: string, c: char)
    requires IsHex(g) && HexValue(c).Some?
    ensures IsHex(g + [c]) && GroupValue(g + [c]) == GroupValue(g) * 16 + HexValue(c).value
  {
    assert (g + [c])[..|g|] == g;
  }

  lemma NextGroup(a: Address, g: string, n: nat, gapBefore: bool) returns (b: Address)
    requires Follows(a, n + 2, gapBefore) && 1 <= |g| <= 4 && IsHex(g) && RestText(a) != ""
    ensures Follows(b, n, gapBefore) && RestText(b) == g + ":" + RestText(a)
  {
    assert IsGroup(g);
    hide IsGroup;
    b := a.(left := [g] + a.left);
    assert b.left[1..] == a.left;
    FirstGroup(b);
    hide RestText;
    assert g + (":" + RestText(a)) == g + ":" + RestText(a);
  }

  /** What an accepting scan does with the next character. */
  lemma ScanStep(s: string, tok: string, out: seq<Byte>, colon: Option<nat>, seen: nat, val: Word)
    requires |out| <= 16 && (colon.Some? ==> colon.value <= |out|) && Fits(seen, val)
    requires Scan6(s, tok, out, colon, seen, val).Some?
    ensures |WordBytes(val)| == 2
    ensures s == "" ==> Finish6(out, colon, seen, val).Some?
    ensures s != "" && HexValue(s[0]).Some? ==>
              seen < 4 && Fits(seen + 1, val * 16 + HexValue(s[0]).value)
              && Scan6(s[1..], tok, out, colon, seen + 1, val * 16 + HexValue(s[0]).value).Some?
    ensures s != "" && s[0] == ':' && seen == 0 ==> colon.None? && Scan6(s[1..], s[1..], out, Some(|out|), 0, 0).Some?
    ensures s != "" && s[0] == ':' && seen > 0 ==>
              s[1..] != "" && |out| + 2 <= 16 && Scan6(s[1..], s[1..], out + WordBytes(val), colon, 0, 0).Some?
    ensures s != "" && HexValue(s[0]).None? && s[0] != ':' ==>
              |out| + 4 <= 16 && Parse4(tok).Some? && Finish6(out + Parse4(tok).value, colon, 0, val).Some?
  {
    hide Finish6, Parse4;
  }

  /** What an accepting scan has still to read is a rest of the grammar. */
  lemma {:induction false} Complete6(s: string, g: string, out: seq<Byte>, colon: Option<nat>) returns (a: Address)
    requires IsHex(g) && |g| <= 4 && Fits(|g|, GroupValue(g)) && |out| <= 16 && (colon.Some? ==> colon.value <= |out|)
    requires Scan6(s, g + s, out, colon, |g|, GroupValue(g)).Some?
    ensures Follows(a, |out|, colon.Some?) && RestText(a) == g + s
    decreases |s|
  {
    hide *;
    FitsWord(|g|, GroupValue(g));
    ScanStep(s, g + s, out, colon, |g|, GroupValue(g));
    NoDigits();
    NoGroup();
    if s == "" {
      a := EndOfText(g, out, colon);
    } else {
      assert s == [s[0]] + s[1..] && "" + s[1..] == s[1..];
      if HexValue(s[0]).Some? {
        GroupSnoc(g, s[0]);
        assert g + [s[0]] + s[1..] == g + s;
        a := Complete6(s[1..], g + [s[0]], out, colon);
      } else if s[0] == ':' && g == "" {
        a := Complete6(s[1..], "", out, Some(|out|));
        a := OpenGap(a, |out|);
        assert ":" + s[1..] == "" + s;
      } else if s[0] == ':' {
        a := Complete6(s[1..], "", out + WordBytes(GroupValue(g)), colon);
        a := NextGroup(a, g, |out|, colon.Some?);
        assert g + ":" + s[1..] == g + s;
      } else {
        a := QuadAtEnd(g + s, out, colon, GroupValue(g));
      }
    }
  }

  lemma NoGroup()
    ensures IsHex("") && GroupValue("") == 0
  {
  }

  lemma FitsWord(seen: nat, val: int)
    requires Fits(seen, val)
    ensures 0 <= val < 0x1_0000
  {
  }

  lemma EndOfText(g: string, out: seq<Byte>, colon: Option<nat>) returns (a: Address)
    requires IsHex(g) && |g| <= 4 && GroupValue(g) < 0x1_0000 && |out| <= 16 && (colon.Some? ==> colon.value <= |out|)
    requires Finish6(out, colon, |g|, GroupValue(g)).Some?
    ensures Follows(a, |out|, colon.Some?) && RestText(a) == g + ""
  {
    a := Address(if g == "" then [] else [g], false, [], None);
    assert g + "" == g;
  }

  lemma OpenGap(a: Address, n: nat) returns (b: Address)
    requires Follows(a, n, true)
    ensures Follows(b, n, false) && RestText(b) == ":" + RestText(a)
  {
    hide Text4, IsGroup;
    b := Address([], true, a.left, a.quad);
  }

  lemma QuadAtEnd(tok: string, out: seq<Byte>, colon: Option<nat>, val: Word) returns (a: Address)
    requires |out| + 4 <= 16 && (colon.Some? ==> colon.value <= |out|)
    requires Parse4(tok).Some? && Finish6(out + Parse4(tok).value, colon, 0, val).Some?
    ensures Follows(a, |out|, colon.Some?) && RestText(a) == tok
  {
    hide Parse4, Text4;
    var q := Parse4(tok).value;
    Parse4Inverse(tok, q);
    a := Address([], false, [], Some(q));
    assert Items([], Some(q)) == [Text4(q)];
  }

  /** Every accepted text is one of the grammar. */
  lemma Complete(src: string) returns (a: Address)
    requires Parse6(src).Some?
    ensures IsAddress(a) && AddressText6(a) == src
  {
    hide Scan6, RestText;
    NoDigits();
    if src != [] && src[0] == ':' {
      assert "" + src[1..] == src[1..];
      a := Complete6(src[1..], "", [], None);
      TextStarts(a);
      assert ":" + src[1..] == src;
    } else {
      assert "" + src == src;
      a := Complete6(src, "", [], None);
      TextStarts(a);
    }
  }

  /** inet_pton6 accepts a text as an address exactly if the text is one of the grammar
      that spells this address. */
  lemma AcceptsExactly(src: string, b: seq<Byte>)
    ensures Parse6(src) == Some(b) <==> exists a :: IsAddress(a) && AddressText6(a) == src && AddressValue(a) == b
  {
    hide Parse6, AddressText6, AddressValue, AreGroups;
    if Parse6(src) == Some(b) {
      var a := Complete(src);
      Sound(a);
    }
    forall a | IsAddress(a) && AddressText6(a) == src ensures Parse6(src) == Some(AddressValue(a)) {
      Sound(a);
    }
  }

  // ---------- What is printed is in the grammar ----------

  lemma {:induction false} HexIsGroup(v: Word)
    ensures IsGroup(Hex(v)) && GroupValue(Hex(v)) == v
    decreases v
  {
    hide Hex, GroupValue;
    HexGrows(v);
    LastDigit(v);
    NoGroup();
    if v >= 16 {
      HexIsGroup(v / 16);
      GroupSnoc(Hex(v / 16), DigitChar(v % 16));
    } else {
      GroupSnoc("", DigitChar(v));
      assert "" + [DigitChar(v)] == [DigitChar(v)];
    }
  }

  lemma LastDigit(v: nat)
    ensures HexValue(DigitChar(v % 16)) == Some(v % 16)
  {
  }

  function Hexes(ws: seq<Word>): (gs: seq<string>)
    ensures |gs| == |ws|
  {
    seq(|ws|, i requires 0 <= i < |ws| => Hex(ws[i]))
  }

  lemma HexesAreGroups(ws: seq<Word>)
    ensures AreGroups(Hexes(ws)) && Words(Hexes(ws)) == ws
  {
    hide Hex, IsGroup, GroupValue;
    forall i | 0 <= i < |ws| ensures IsGroup(Hexes(ws)[i]) && GroupWord(Hexes(ws)[i]) == ws[i] {
      HexIsGroup(ws[i]);
    }
  }

  lemma {:induction false} TailCons(ws: seq<Word>)
    requires ws != []
    ensures Tail(ws) == ":" + Joined(ws)
  {
    hide Hex;
    var k := |ws| - 1;
    if k > 0 {
      TailCons(ws[..k]);
      assert ws[..k][1..] == ws[1..][..k - 1];
    }
  }

  lemma {:induction false} ColonsAreJoined(ws: seq<Word>)
    ensures Colons(Hexes(ws)) == Joined(ws)
  {
    hide Hex, Tail;
    if |ws| == 1 {
      NoTail();
      assert ws[1..] == [] && Hex(ws[0]) + "" == Hex(ws[0]);
    } else if |ws| > 1 {
      ColonsAreJoined(ws[1..]);
      TailCons(ws[1..]);
      assert Hexes(ws)[1..] == Hexes(ws[1..]);
      assert Hex(ws[0]) + ":" + Joined(ws[1..]) == Hex(ws[0]) + (":" + Joined(ws[1..]));
    }
  }

  lemma NoTail()
    ensures Tail([]) == ""
  {
  }

  /** The printed text as one of the grammar. */
  function Printed(w: seq<Word>, best: Run): Address
    requires |w| == 8 && (best.base == -1 || (0 <= best.base && 2 <= best.len && best.base + best.len <= 8))
  {
    if best.base == -1 then Address(Hexes(w), false, [], None)
    else if Embeds4(w, best) then
      Address([], true, if best.len == 5 then ["ffff"] else [], Some(Bytes(w)[12..]))
    else
      Address(Hexes(w[..best.base]), true, Hexes(w[best.base + best.len..]), None)
  }

  lemma PrintedWithoutRun(w: seq<Word>, best: Run)
    requires |w| == 8 && best.base == -1
    ensures var a := Printed(w, best); IsAddress(a) && AddressText6(a) == Text6(w, best) && AddressValue(a) == Bytes(w)
  {
    hide Bytes, Hexes, Words, AreGroups, Joined, Colons;
    HexesAreGroups(w);
    ColonsAreJoined(w);
    NoGroups();
    assert Items(Hexes(w), None) == Hexes(w);
    assert Zeros(0) == [];
  }

  lemma NoGroups()
    ensures AreGroups([]) && Words([]) == [] && Bytes([]) == [] && Colons([]) == ""
  {
  }

  /** With a gap, what is before it and what is behind it. */
  lemma GapText(a: Address)
    requires a.gap && QuadFits(a.quad)
    ensures AddressText6(a) == Colons(a.left) + "::" + Colons(Items(a.right, a.quad))
  {
    hide Text4, Items;
    var l, r := Colons(a.left), Colons(Items(a.right, a.quad));
    if a.left == [] {
      assert ":" + ("" + ":" + r) == "" + "::" + r;
    } else {
      hide Colons;
      assert (l + ":") + ":" + r == l + "::" + r;
    }
  }

  lemma ItemsOf(gs: seq<string>, quad: Option<seq<Byte>>)
    requires QuadFits(quad)
    ensures quad.None? ==> Items(gs, quad) == gs
    ensures quad.Some? && gs == [] ==> Colons(Items(gs, quad)) == Text4(quad.value)
    ensures quad.Some? && |gs| == 1 ==> Colons(Items(gs, quad)) == gs[0] + ":" + Text4(quad.value)
  {
    hide Text4;
    if quad.Some? && |gs| == 1 {
      assert Items(gs, quad)[1..] == [Text4(quad.value)];
    }
  }

  /** The address of a text with a gap and without a quad. */
  lemma GapAddress(l: seq<string>, r: seq<string>)
    requires AreGroups(l) && AreGroups(r) && |l| + |r| < 8
    ensures var a := Address(l, true, r, None);
            && IsAddress(a) && AddressText6(a) == Colons(l) + "::" + Colons(r)
            && AddressValue(a) == Bytes(Words(l)) + Zeros(16 - 2 * |l| - 2 * |r|) + Bytes(Words(r))
  {
    hide Bytes, Words, AreGroups, Colons, RestText, AddressText6, Items, Zeros;
    GapText(Address(l, true, r, None));
    ItemsOf(r, None);
    NothingBehind(Bytes(Words(l)) + Zeros(16 - 2 * |l| - 2 * |r|) + Bytes(Words(r)));
  }

  lemma AroundIsAddress(l: seq<Word>, r: seq<Word>)
    requires |l| + |r| < 8
    ensures var a := Address(Hexes(l), true, Hexes(r), None);
            && IsAddress(a) && AddressText6(a) == Joined(l) + "::" + Joined(r)
            && AddressValue(a) == Bytes(l) + Zeros(16 - 2 * |l| - 2 * |r|) + Bytes(r)
  {
    hide *;
    HexesAreGroups(l);
    HexesAreGroups(r);
    ColonsAreJoined(l);
    ColonsAreJoined(r);
    GapAddress(Hexes(l), Hexes(r));
  }

  lemma NothingBehind(b: seq<Byte>)
    ensures b + [] == b
  {
  }

  lemma PrintedWithRun(w: seq<Word>, best: Run)
    requires |w| == 8 && 0 <= best.base && 2 <= best.len && best.base + best.len <= 8
    requires ZeroRun(w, best.base, best.len) && !Embeds4(w, best)
    ensures var a := Printed(w, best); IsAddress(a) && AddressText6(a) == Text6(w, best) && AddressValue(a) == Bytes(w)
  {
    hide Bytes, Hexes, Joined, ZeroRun, Embeds4, IsAddress, AddressText6, AddressValue, Zeros;
    AroundIsAddress(w[..best.base], w[best.base + best.len..]);
    BytesAround(w, best.base, best.len);
  }

  lemma FfffIsGroup()
    ensures IsGroup("ffff") && GroupWord("ffff") == 0xffff
    ensures AreGroups(["ffff"]) && Words(["ffff"]) == [0xffff]
  {
    HexIsGroup(0xffff);
    Ffff();
  }

  lemma PrintedWithQuad(w: seq<Word>, best: Run)
    requires |w| == 8 && best.base == 0 && best.len >= 2 && ZeroRun(w, 0, best.len) && Embeds4(w, best)
    ensures var a := Printed(w, best); IsAddress(a) && AddressText6(a) == Text6(w, best) && AddressValue(a) == Bytes(w)
  {
    var q := Bytes(w)[12..];
    assert best.len == 5 || best.len == 6;
    assert w[6..6] == [] && (best.len == 5 ==> w[5..6] == [0xffff]);
    hide Bytes, Words, AreGroups, ZeroRun, Text4, Items, Colons, RestText, AddressText6, Zeros;
    FfffIsGroup();
    QuadBytes(w, best.len);
    NoGroups();
    GapText(Printed(w, best));
    ItemsOf(Printed(w, best).right, Some(q));
    QuadSpelt(Text4(q));
    QuadValue(best.len, q);
  }

  lemma QuadSpelt(text: string)
    ensures "" + "::" + text == "::" + "" + text
    ensures "" + "::" + ("ffff" + ":" + text) == "::" + "ffff:" + text
  {
  }

  lemma QuadValue(n: nat, q: seq<Byte>)
    ensures [] + Zeros(2 * n) + [] + q == Zeros(2 * n) + ([] + q)
    ensures [] + Zeros(2 * n) + Bytes([0xffff]) + q == Zeros(2 * n) + (Bytes([0xffff]) + q)
  {
    hide Zeros, Bytes;
  }

  /** Parsing undoes printing, whichever run of zero words "::" stands for. */
  lemma RoundTrip6(w: seq<Word>, best: Run)
    requires |w| == 8 && IsBest(w, best)
    ensures Parse6(Text6(w, best)) == Some(Bytes(w))
  {
    if best.base == -1 {
      PrintedWithoutRun(w, best);
    } else if Embeds4(w, best) {
      PrintedWithQuad(w, best);
    } else {
      PrintedWithRun(w, best);
    }
    hide Parse6, Text6, Bytes, IsAddress, AddressText6, AddressValue;
    Sound(Printed(w, best));
  }
}
