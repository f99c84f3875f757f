/** Keys of the media objects a chat message may point to: printed when an upload is
    prepared, carried back by the client inside a public URL, parsed and checked when
    the message is sent. */
module ObjectKey {
  import opened Strings

  // ---- environment names ----

  /** unicode.ToLower and unicode.IsSpace. */
  datatype Letters = Letters(lower: char -> char, space: char -> bool)

  predicate CleanChar(c: char) {
    'a' <= c <= 'z' || '0' <= c <= '9' || c == '-'
  }

  ghost predicate Lawful(l: Letters) {
    forall c :: CleanChar(c) ==> l.lower(c) == c && !l.space(c)
  }

  function TrimLeftSpace(l: Letters, s: string): string {
    if s != "" && l.space(s[0]) then TrimLeftSpace(l, s[1..]) else s
  }

  function TrimRightSpace(l: Letters, s: string): string {
    if s != "" && l.space(s[|s| - 1]) then TrimRightSpace(l, s[..|s| - 1]) else s
  }

  function Lower(l: Letters, s: string): (r: string)
    ensures |r| == |s| && forall i :: 0 <= i < |s| ==> r[i] == l.lower(s[i])
  {
    seq(|s|, i requires 0 <= i < |s| => l.lower(s[i]))
  }

  function Clean(s: string): (r: string)
    ensures forall i :: 0 <= i < |r| ==> CleanChar(r[i])
  {
    if s == "" then "" else (if CleanChar(s[0]) then [s[0]] else "") + Clean(s[1..])
  }

  function SanitizeEnvName(l: Letters, env: string): (r: string)
    ensures r != "" && forall i :: 0 <= i < |r| ==> CleanChar(r[i])
  {
    var name := Lower(l, TrimRightSpace(l, TrimLeftSpace(l, env)));
    if name == "" || Clean(name) == "" then "dev" else Clean(name)
  }

  lemma CleanStep(s: string, i: nat)
    requires i < |s|
    ensures Clean(s[i..]) == (if CleanChar(s[i]) then [s[i]] else "") + Clean(s[i + 1..])
  {
    assert s[i..][0] == s[i] && s[i..][1..] == s[i + 1..];
  }

  lemma CleanNothing(s: string)
    ensures Clean(s[|s|..]) == "" && s[0..] == s
  {
  }

  /** The same with the loop of the source. */
  method Sanitize(l: Letters, env: string) returns (r: string)
    ensures r == SanitizeEnvName(l, env)
  {
    hide Clean, Lower, TrimRightSpace, TrimLeftSpace;
    var name := Lower(l, TrimRightSpace(l, TrimLeftSpace(l, env)));
    if name == "" {
      return "dev";
    }
    CleanNothing(name);
    var clean := "";
    for i := 0 to |name|
      invariant clean + Clean(name[i..]) == Clean(name)
    {
      var c := name[i];
      CleanStep(name, i);
      if 'a' <= c <= 'z' || '0' <= c <= '9' || c == '-' {
        clean := clean + [c];
      }
    }
    assert clean == Clean(name);
    r := if |clean| == 0 then "dev" else clean;
  }

  lemma {:induction false} CleanIsKept(s: string)
    requires forall i :: 0 <= i < |s| ==> CleanChar(s[i])
    ensures Clean(s) == s
  {
    if s != "" {
      CleanIsKept(s[1..]);
      assert [s[0]] + s[1..] == s;
    }
  }

  lemma {:induction false} CleanSplits(a: string, b: string)
    ensures Clean(a + b) == Clean(a) + Clean(b)
  {
    if a == "" {
      assert a + b == b;
    } else {
      assert (a + b)[0] == a[0] && (a + b)[1..] == a[1..] + b;
      CleanSplits(a[1..], b);
    }
  }

  lemma CleanOne(c: char)
    ensures Clean([c]) == if 'a' <= c <= 'z' || '0' <= c <= '9' || c == '-' then [c] else ""
  {
  }

  lemma SpaceIsDropped(l: Letters, a: string, c: char, b: string)
    requires l.space(c) && !CleanChar(l.lower(c))
    ensures Clean(Lower(l, a + [c] + b)) == Clean(Lower(l, a + b))
  {
    CleanOne(l.lower(c));
    hide Clean;
    assert Lower(l, a + [c] + b) == Lower(l, a) + [l.lower(c)] + Lower(l, b);
    assert Lower(l, a + b) == Lower(l, a) + Lower(l, b);
    CleanSplits(Lower(l, a) + [l.lower(c)], Lower(l, b));
    CleanSplits(Lower(l, a), [l.lower(c)]);
    CleanSplits(Lower(l, a), Lower(l, b));
  }

  lemma {:induction false} TrimLeftKeepsClean(l: Letters, s: string)
    requires forall c :: l.space(c) ==> !CleanChar(l.lower(c))
    ensures Clean(Lower(l, TrimLeftSpace(l, s))) == Clean(Lower(l, s))
  {
    hide Clean, Lower;
    if s != "" && l.space(s[0]) {
      TrimLeftKeepsClean(l, s[1..]);
      SpaceIsDropped(l, "", s[0], s[1..]);
      assert s == "" + [s[0]] + s[1..] && s[1..] == "" + s[1..];
    }
  }

  lemma {:induction false} TrimRightKeepsClean(l: Letters, s: string)
    requires forall c :: l.space(c) ==> !CleanChar(l.lower(c))
    ensures Clean(Lower(l, TrimRightSpace(l, s))) == Clean(Lower(l, s))
  {
    hide Clean, Lower;
    var n := |s| - 1;
    if s != "" && l.space(s[n]) {
      TrimRightKeepsClean(l, s[..n]);
      SpaceIsDropped(l, s[..n], s[n], "");
      assert s == s[..n] + [s[n]] + "" && s[..n] == s[..n] + "";
    }
  }

  /** `r` is `s` without the characters other than lower-case letters, digits and dashes: `kept`
      lists the places of the others. */
  ghost predicate Keeps(s: string, r: string, kept: seq<nat>) {
    && |kept| == |r|
    && (forall i :: 0 <= i < |r| ==> kept[i] < |s| && r[i] == s[kept[i]])
    && (forall i, j :: 0 <= i < j < |kept| ==> kept[i] < kept[j])
    && (forall k: nat :: k < |s| ==> (k in kept <==> 'a' <= s[k] <= 'z' || '0' <= s[k] <= '9' || s[k] == '-'))
  }

  lemma KeepsOneMore(s: string, r: string, kept: seq<nat>, c: char)
    requires Keeps(s, r, kept)
    ensures if CleanChar(c) then Keeps(s + [c], r + [c], kept + [|s|]) else Keeps(s + [c], r, kept)
  {
  }

  lemma {:induction false} CleanKeeps(s: string) returns (kept: seq<nat>)
    ensures Keeps(s, Clean(s), kept)
    decreases |s|
  {
    hide CleanChar, Clean, Keeps;
    if s == "" {
      kept := [];
      NothingKept();
    } else {
      var n := |s| - 1;
      var before := CleanKeeps(s[..n]);
      CleanSplits(s[..n], [s[n]]);
      CleanOne(s[n]);
      IsClean(s[n]);
      assert s == s[..n] + [s[n]];
      KeepsOneMore(s[..n], Clean(s[..n]), before, s[n]);
      kept := if CleanChar(s[n]) then before + [n] else before;
      assert Clean(s) == if CleanChar(s[n]) then Clean(s[..n]) + [s[n]] else Clean(s[..n]);
    }
  }

  lemma NothingKept()
    ensures Keeps("", Clean(""), [])
  {
  }

  lemma IsClean(c: char)
    ensures CleanChar(c) <==> 'a' <= c <= 'z' || '0' <= c <= '9' || c == '-'
  {
  }

  /** A sanitized name is the lowered name's letters, digits and dashes in order, or "dev" when it
      has none. */
  lemma SanitizeMeans(l: Letters, env: string) returns (kept: seq<nat>)
    requires forall c :: l.space(c) ==> !CleanChar(l.lower(c))
    ensures var r := SanitizeEnvName(l, env); Keeps(Lower(l, env), if kept == [] then "" else r, kept) && (kept == [] ==> r == "dev")
  {
    var trimmed := TrimLeftSpace(l, env);
    TrimLeftKeepsClean(l, env);
    TrimRightKeepsClean(l, trimmed);
    kept := CleanKeeps(Lower(l, env));
  }

  /** Sanitizing twice is sanitizing once: a key printed under a sanitized name is also
      checked under it. */
  lemma SanitizeIsIdempotent(l: Letters, env: string)
    requires Lawful(l)
    ensures SanitizeEnvName(l, SanitizeEnvName(l, env)) == SanitizeEnvName(l, env)
  {
    var r := SanitizeEnvName(l, env);
    assert CleanChar(r[0]) && CleanChar(r[|r| - 1]);
    assert Lower(l, r) == r;
    CleanIsKept(r);
  }

  // ---- UUIDs ----

  type byte = b: int | 0 <= b < 256

  function HexDigit(d: int): (c: char)
    requires 0 <= d < 16
    ensures '0' <= c <= '9' || 'a' <= c <= 'f'
  {
    "0123456789abcdef"[d]
  }

  function HexByte(b: byte): (s: string)
    ensures |s| == 2 && IsHex(s[0]) && IsHex(s[1])
  {
    [HexDigit(b / 16), HexDigit(b % 16)]
  }

  /** %02x of each byte. */
  function Hex(bs: seq<byte>): (s: string)
    ensures |s| == 2 * |bs|
    ensures forall i :: 0 <= i < |s| ==> IsHex(s[i])
  {
    if bs == [] then "" else HexByte(bs[0]) + Hex(bs[1..])
  }

  predicate IsHex(c: char) {
    '0' <= c <= '9' || 'a' <= c <= 'f'
  }

  predicate IsDash(i: int) {
    i in {8, 13, 18, 23}
  }

  predicate IsUUID(s: string) {
    |s| == 36 && forall i :: 0 <= i < 36 ==> if IsDash(i) then s[i] == '-' else IsHex(s[i])
  }

  /** (b & 0x0f) | 0x40 and (b & 0x3f) | 0x80 on the two marked bytes. */
  function Marked(random: seq<byte>): (b: seq<byte>)
    requires |random| == 16
    ensures |b| == 16
  {
    random[6 := random[6] % 16 + 0x40][8 := random[8] % 64 + 0x80]
  }

  /** Sixteen bytes in the usual five groups. */
  function SpellUUID(b: seq<byte>): string
    requires |b| == 16
  {
    Hex(b[..4]) + "-" + Hex(b[4..6]) + "-" + Hex(b[6..8]) + "-" + Hex(b[8..10]) + "-" + Hex(b[10..])
  }

  function NewUUID(random: seq<byte>): string
    requires |random| == 16
  {
    SpellUUID(Marked(random))
  }

  /** The printed id is well formed, and carries the version and variant of section 4.4 of
      RFC 4122: version digit 4, variant digit 8, 9, a or b. */
  lemma NewUUIDIsVersionFour(random: seq<byte>)
    requires |random| == 16
    ensures IsUUID(NewUUID(random))
    ensures NewUUID(random)[14] == '4' && NewUUID(random)[19] in "89ab"
  {
    var b := Marked(random);
    var s := NewUUID(random);
    assert s[14] == Hex(b[6..8])[0] && s[19] == Hex(b[8..10])[0];
    assert Hex(b[6..8])[0] == HexByte(b[6])[0] && Hex(b[8..10])[0] == HexByte(b[8])[0];
    assert b[6] / 16 == 4 && b[8] / 16 in {8, 9, 10, 11};
  }

  /** The arithmetic of Marked is the masking of the source, on those two bytes and no other. */
  lemma MarkingIsMasking(random: seq<byte>, b6: bv8, b8: bv8)
    requires |random| == 16 && random[6] == b6 as int && random[8] == b8 as int
    ensures var b := Marked(random);
      && b[6] == ((b6 & 0x0f) | 0x40) as int && b[8] == ((b8 & 0x3f) | 0x80) as int
      && forall i :: 0 <= i < 16 && i != 6 && i != 8 ==> b[i] == random[i]
  {
    MaskedByte(b6);
    MaskedByte(b8);
  }

  lemma MaskedByte(b: bv8)
    ensures ((b & 0x0f) | 0x40) as int == b as int % 16 + 0x40
    ensures ((b & 0x3f) | 0x80) as int == b as int % 64 + 0x80
  {
    assert (b & 0x0f) | 0x40 == b % 16 + 0x40;
    assert (b & 0x3f) | 0x80 == b % 64 + 0x80;
  }

  predicate AllHex(s: string) {
    forall i :: 0 <= i < |s| ==> IsHex(s[i])
  }

  function HexValue(c: char): (d: int)
    requires IsHex(c)
    ensures 0 <= d < 16
  {
    if c <= '9' then c as int - '0' as int else c as int - 'a' as int + 10
  }

  function Unhex(s: string): seq<byte>
    requires |s| % 2 == 0 && AllHex(s)
  {
    if s == "" then [] else [16 * HexValue(s[0]) + HexValue(s[1])] + Unhex(s[2..])
  }

  /** Reading hexadecimal text inverts printing it. */
  lemma {:induction false} HexRoundTrip(bs: seq<byte>)
    ensures Unhex(Hex(bs)) == bs
  {
    if bs != [] {
      HexRoundTrip(bs[1..]);
      var s, b := Hex(bs), bs[0];
      assert s[2..] == Hex(bs[1..]) && s[0] == HexDigit(b / 16) && s[1] == HexDigit(b % 16);
      ValueOfDigit(b / 16);
      ValueOfDigit(b % 16);
      hide Hex, HexValue, HexDigit;
      assert [b] + bs[1..] == bs;
    }
  }

  /** Printing inverts reading it. */
  lemma {:induction false} UnhexRoundTrip(s: string)
    requires |s| % 2 == 0 && AllHex(s)
    ensures Hex(Unhex(s)) == s
  {
    if s != "" {
      TwoOfHex(s);
      hide Hex, Unhex, HexByte, HexValue, IsHex, AllHex;
      UnhexRoundTrip(s[2..]);
      PrintedByte(s[0], s[1]);
      var b: byte := 16 * HexValue(s[0]) + HexValue(s[1]);
      HexOfMore(b, Unhex(s[2..]));
      assert [s[0], s[1]] + s[2..] == s;
    }
  }

  lemma TwoOfHex(s: string)
    requires s != "" && |s| % 2 == 0 && AllHex(s)
    ensures AllHex(s[2..]) && IsHex(s[0]) && IsHex(s[1])
    ensures Unhex(s) == [16 * HexValue(s[0]) + HexValue(s[1])] + Unhex(s[2..])
  {
  }

  lemma HexOfMore(b: byte, bs: seq<byte>)
    ensures Hex([b] + bs) == HexByte(b) + Hex(bs)
  {
    hide HexByte;
    assert ([b] + bs)[1..] == bs;
  }

  lemma PrintedByte(c: char, d: char)
    requires IsHex(c) && IsHex(d)
    ensures HexByte(16 * HexValue(c) + HexValue(d)) == [c, d]
  {
    hide *;
    DigitOfValue(c);
    DigitOfValue(d);
    TwoDigits(HexValue(c), HexValue(d));
  }

  lemma TwoDigits(x: int, y: int)
    requires 0 <= x < 16 && 0 <= y < 16
    ensures HexByte(16 * x + y) == [HexDigit(x), HexDigit(y)]
  {
    hide HexDigit, IsHex;
    assert (16 * x + y) / 16 == x && (16 * x + y) % 16 == y;
  }

  lemma DigitOfValue(c: char)
    requires IsHex(c)
    ensures HexDigit(HexValue(c)) == c
  {
  }

  lemma ValueOfDigit(d: int)
    requires 0 <= d < 16
    ensures HexValue(HexDigit(d)) == d
  {
  }

  lemma Slices(p: string, q: string, r: string, t: string, u: string)
    requires |p| == 8 && |q| == 4 && |r| == 4 && |t| == 4
    ensures var s := p + "-" + q + "-" + r + "-" + t + "-" + u;
      s[..8] == p && s[9..13] == q && s[14..18] == r && s[19..23] == t && s[24..] == u
  {
  }

  lemma PartsOfUUID(b: seq<byte>)
    requires |b| == 16
    ensures var s := SpellUUID(b);
      |s| == 36 && s[..8] == Hex(b[..4]) && s[9..13] == Hex(b[4..6]) && s[14..18] == Hex(b[6..8])
      && s[19..23] == Hex(b[8..10]) && s[24..] == Hex(b[10..])
  {
    hide Hex;
    Slices(Hex(b[..4]), Hex(b[4..6]), Hex(b[6..8]), Hex(b[8..10]), Hex(b[10..]));
  }

  lemma SpellIsInjective(b0: seq<byte>, b1: seq<byte>)
    requires |b0| == 16 && |b1| == 16 && SpellUUID(b0) == SpellUUID(b1)
    ensures b0 == b1
  {
    PartsOfUUID(b0);
    PartsOfUUID(b1);
    hide Hex, SpellUUID, Unhex;
    assert b0 == b0[..4] + b0[4..6] + b0[6..8] + b0[8..10] + b0[10..];
    assert b1 == b1[..4] + b1[4..6] + b1[6..8] + b1[8..10] + b1[10..];
    HexRoundTrip(b0[..4]);
    HexRoundTrip(b1[..4]);
    HexRoundTrip(b0[4..6]);
    HexRoundTrip(b1[4..6]);
    HexRoundTrip(b0[6..8]);
    HexRoundTrip(b1[6..8]);
    HexRoundTrip(b0[8..10]);
    HexRoundTrip(b1[8..10]);
    HexRoundTrip(b0[10..]);
    HexRoundTrip(b1[10..]);
  }

  /** No other bit is lost: two ids are equal only when they print the same marked bytes. */
  lemma NewUUIDIsInjective(r0: seq<byte>, r1: seq<byte>)
    requires |r0| == 16 && |r1| == 16
    ensures NewUUID(r0) == NewUUID(r1) <==> Marked(r0) == Marked(r1)
  {
    hide SpellUUID, Marked;
    if NewUUID(r0) == NewUUID(r1) {
      SpellIsInjective(Marked(r0), Marked(r1));
    }
  }

  lemma SpelledIsUUID(b: seq<byte>)
    requires |b| == 16
    ensures IsUUID(SpellUUID(b))
  {
    hide Hex, IsHex;
  }

  /** The check on ids accepts exactly the spellings of sixteen bytes. */
  lemma UUIDsAreTheSpelled(s: string)
    ensures IsUUID(s) <==> exists b: seq<byte> :: |b| == 16 && s == SpellUUID(b)
  {
    if IsUUID(s) {
      var b := ReadUUID(s);
    }
    forall b: seq<byte> | |b| == 16 && s == SpellUUID(b) ensures IsUUID(s) {
      SpelledIsUUID(b);
    }
  }

  lemma ReadUUID(s: string) returns (b: seq<byte>)
    requires IsUUID(s)
    ensures |b| == 16 && s == SpellUUID(b)
  {
    hide IsHex, Hex, Unhex;
    UnhexRoundTrip(s[..8]);
    UnhexRoundTrip(s[9..13]);
    UnhexRoundTrip(s[14..18]);
    UnhexRoundTrip(s[19..23]);
    UnhexRoundTrip(s[24..]);
    var p, q, r, t, u := Unhex(s[..8]), Unhex(s[9..13]), Unhex(s[14..18]), Unhex(s[19..23]), Unhex(s[24..]);
    b := p + q + r + t + u;
    assert b[..4] == p && b[4..6] == q && b[6..8] == r && b[8..10] == t && b[10..] == u;
    assert s == s[..8] + "-" + s[9..13] + "-" + s[14..18] + "-" + s[19..23] + "-" + s[24..];
  }

  // ---- keys ----

  /** The format im/%s/%s/%s/%s.%s. */
  function Spell(name: string, year: string, month: string, id: string, ext: string): string {
    "im" + ['/'] + (name + ['/'] + (year + ['/'] + (month + ['/'] + (id + "." + ext))))
  }

  function FormatIMObjectKey(l: Letters, env: string, ext: string, year: nat, month: nat, random: seq<byte>): string
    requires |random| == 16
  {
    Spell(SanitizeEnvName(l, env), Digits(year, 4), Digits(month, 2), NewUUID(random), ext)
  }

  predicate IsAllDigits(s: string) {
    forall i :: 0 <= i < |s| ==> '0' <= s[i] <= '9'
  }

  predicate IsAllowedExt(l: Letters, ext: string) {
    Lower(l, ext) in {"jpg", "jpeg", "png", "webp", "gif"}
  }

  predicate ValidIMObjectKey(l: Letters, key: string, env: string) {
    var parts := Split(key, '/');
    && |parts| == 5
    && parts[0] == "im"
    && parts[1] == SanitizeEnvName(l, env)
    && |parts[2]| == 4 && IsAllDigits(parts[2])
    && |parts[3]| == 2 && IsAllDigits(parts[3])
    && (var dot := LastIndex(parts[4], '.');
        && 0 < dot < |parts[4]| - 1
        && IsUUID(parts[4][..dot]))
  }

  datatype Parsed = Key(key: string) | BaseRequired | UrlInvalid

  function ParseObjectKeyFromURL(url: string, publicBase: string): Parsed {
    var base := TrimRight(publicBase, '/');
    if base == "" then BaseRequired
    else if !(base + "/" <= url) then UrlInvalid
    else if url[|base| + 1..] == "" then UrlInvalid
    else Key(url[|base| + 1..])
  }

  // ---- the round trip ----

  lemma PiecesOfAKey(env: string, year: string, month: string, file: string)
    requires '/' !in env && '/' !in year && '/' !in month && '/' !in file
    ensures Split("im" + ['/'] + (env + ['/'] + (year + ['/'] + (month + ['/'] + file))), '/') == ["im", env, year, month, file]
  {
    hide Split;
    var k3 := month + ['/'] + file;
    var k2 := year + ['/'] + k3;
    var k1 := env + ['/'] + k2;
    SplitFirst("im", k1, '/');
    SplitFirst(env, k2, '/');
    SplitFirst(year, k3, '/');
    SplitFirst(month, file, '/');
    SplitWhole(file, '/');
  }

  /** Five pieces joined by slashes are what five pieces were split from. */
  lemma KeyFromPieces(key: string)
    requires |Split(key, '/')| == 5
    ensures var p := Split(key, '/');
      key == p[0] + ['/'] + (p[1] + ['/'] + (p[2] + ['/'] + (p[3] + ['/'] + p[4])))
  {
    hide Split;
    var p := Split(key, '/');
    JoinSplit(key, '/');
    assert p[1..][0] == p[1] && p[1..][1..] == p[2..];
    assert p[2..][0] == p[2] && p[2..][1..] == p[3..];
    assert p[3..][0] == p[3] && p[3..][1..] == p[4..];
    assert p[4..][0] == p[4];
    assert Join(p[3..], '/') == p[3] + ['/'] + p[4];
    assert Join(p[2..], '/') == p[2] + ['/'] + Join(p[3..], '/');
    assert Join(p[1..], '/') == p[1] + ['/'] + Join(p[2..], '/');
  }

  lemma FileName(id: string, ext: string)
    requires IsUUID(id) && '.' !in ext && ext != ""
    ensures LastIndex(id + "." + ext, '.') == 36 && (id + "." + ext)[..36] == id
  {
    var file := id + "." + ext;
    assert file[36] == '.';
    forall j | 36 < j < |file| ensures file[j] != '.' {
      assert file[j] == ext[j - 37];
    }
  }

  lemma UUIDHasNoSlash(id: string)
    requires IsUUID(id)
    ensures '/' !in id
  {
    forall i | 0 <= i < |id| ensures id[i] != '/' {
      assert if IsDash(i) then id[i] == '-' else IsHex(id[i]);
    }
  }

  predicate Shaped(year: string, month: string, id: string, ext: string) {
    && |year| == 4 && (forall c :: c in year ==> '0' <= c <= '9')
    && |month| == 2 && (forall c :: c in month ==> '0' <= c <= '9')
    && IsUUID(id)
    && ext != "" && '.' !in ext && '/' !in ext
  }

  lemma DigitsOnly(s: string)
    ensures IsAllDigits(s) <==> forall c :: c in s ==> '0' <= c <= '9'
  {
    if forall c :: c in s ==> '0' <= c <= '9' {
      forall i | 0 <= i < |s| ensures '0' <= s[i] <= '9' {
        assert s[i] in s;
      }
    }
  }

  lemma ShapedKeyIsValid(l: Letters, env: string, year: string, month: string, id: string, ext: string)
    requires '/' !in year && '/' !in month && IsUUID(id) && ext != "" && '.' !in ext && '/' !in ext
    ensures ValidIMObjectKey(l, Spell(SanitizeEnvName(l, env), year, month, id, ext), env) <==> Shaped(year, month, id, ext)
  {
    var file := id + "." + ext;
    DigitsOnly(year);
    DigitsOnly(month);
    hide IsUUID, IsAllDigits;
    FileName(id, ext);
    UUIDHasNoSlash(id);
    PiecesOfAKey(SanitizeEnvName(l, env), year, month, file);
  }

  lemma ValidKeyIsShaped(l: Letters, env: string, key: string) returns (year: string, month: string, id: string, ext: string)
    requires ValidIMObjectKey(l, key, env)
    ensures Shaped(year, month, id, ext) && key == Spell(SanitizeEnvName(l, env), year, month, id, ext)
  {
    hide IsUUID;
    var p := Split(key, '/');
    PiecesLackTheSeparator(key, '/');
    KeyFromPieces(key);
    var file := p[4];
    var dot := LastIndex(file, '.');
    year, month, id, ext := p[2], p[3], file[..dot], file[dot + 1..];
    assert file == id + "." + ext;
    assert '/' !in file;
    forall j | 0 <= j < |ext| ensures ext[j] != '.' && ext[j] != '/' {
      assert ext[j] == file[dot + 1 + j];
    }
  }

  /** The language of the check: exactly the keys of the printed shape under the sanitized
      environment name, with a file extension free of dots and slashes. */
  lemma ValidKeysAreExactlyTheShaped(l: Letters, env: string, key: string)
    ensures ValidIMObjectKey(l, key, env)
            <==> exists year, month, id, ext ::
                   Shaped(year, month, id, ext) && key == Spell(SanitizeEnvName(l, env), year, month, id, ext)
  {
    hide ValidIMObjectKey, Shaped, Spell;
    if ValidIMObjectKey(l, key, env) {
      var year, month, id, ext := ValidKeyIsShaped(l, env, key);
    }
    forall year, month, id, ext | Shaped(year, month, id, ext) && key == Spell(SanitizeEnvName(l, env), year, month, id, ext)
      ensures ValidIMObjectKey(l, key, env)
    {
      ShapedHasNoSlash(year, month, id, ext);
      ShapedKeyIsValid(l, env, year, month, id, ext);
    }
  }

  lemma ShapedHasNoSlash(year: string, month: string, id: string, ext: string)
    requires Shaped(year, month, id, ext)
    ensures '/' !in year && '/' !in month && IsUUID(id) && ext != "" && '.' !in ext && '/' !in ext
  {
    hide IsUUID;
  }

  /** A printed key passes the check for the same environment exactly when its year has four
      digits and its month two, for any extension free of '/' and '.', the allowed ones
      included. */
  lemma PrintedKeyIsValid(l: Letters, env: string, ext: string, year: nat, month: nat, random: seq<byte>)
    requires |random| == 16 && ext != "" && '.' !in ext && '/' !in ext
    ensures ValidIMObjectKey(l, FormatIMObjectKey(l, env, ext, year, month, random), env) <==> year <= 9999 && month <= 99
  {
    var y, m, id := Digits(year, 4), Digits(month, 2), NewUUID(random);
    NewUUIDIsVersionFour(random);
    hide NewUUID, IsUUID;
    ShapedKeyIsValid(l, env, y, m, id, ext);
    DigitsWidth(year, 4);
    DigitsWidth(month, 2);
    assert Pow10(4) == 10000 && Pow10(2) == 100;
  }

  lemma AllowedExtIsPlain(l: Letters, ext: string)
    requires IsAllowedExt(l, ext) && l.lower('.') == '.' && l.lower('/') == '/'
    ensures ext != "" && '.' !in ext && '/' !in ext
  {
    var low := Lower(l, ext);
    forall i | 0 <= i < |ext| ensures ext[i] != '.' && ext[i] != '/' {
      assert low[i] == l.lower(ext[i]);
      assert '.' !in low && '/' !in low;
    }
  }

  /** The key that was printed is the key read back from its public URL, and it passes
      the check: for every environment, every 16 random bytes, every allowed extension,
      every year up to 9999 and whatever slashes end the configured base. */
  lemma ObjectKeyRoundTrip(l: Letters, env: string, ext: string, year: nat, month: nat, random: seq<byte>, publicBase: string)
    requires |random| == 16 && IsAllowedExt(l, ext) && l.lower('.') == '.' && l.lower('/') == '/'
    requires year <= 9999 && 1 <= month <= 12 && TrimRight(publicBase, '/') != ""
    ensures var key := FormatIMObjectKey(l, env, ext, year, month, random);
      && ParseObjectKeyFromURL(TrimRight(publicBase, '/') + "/" + key, publicBase) == Key(key)
      && ValidIMObjectKey(l, key, env)
  {
    var key := FormatIMObjectKey(l, env, ext, year, month, random);
    var base := TrimRight(publicBase, '/');
    assert (base + "/" + key)[|base| + 1..] == key;
    AllowedExtIsPlain(l, ext);
    PrintedKeyIsValid(l, env, ext, year, month, random);
  }

  /** Parsing inverts prefixing: it answers a key exactly for the URLs made of the base, a
      slash and that key. */
  lemma ParseIsExact(url: string, publicBase: string, key: string)
    ensures ParseObjectKeyFromURL(url, publicBase) == Key(key)
            <==> TrimRight(publicBase, '/') != "" && key != "" && url == TrimRight(publicBase, '/') + "/" + key
  {
    var base := TrimRight(publicBase, '/');
    if base + "/" <= url {
      assert url == base + "/" + url[|base| + 1..];
    }
    assert url == base + "/" + key ==> url[|base| + 1..] == key;
  }
}
