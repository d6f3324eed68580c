/** Dotted IPv4 addresses: the printer and the two parsers of the repository. */
module Address {
  import opened Bytes

  // ---- ip_into_uint: a scan that never rejects, in 32-bit arithmetic ----

  datatype Acc = Acc(sum: uint32, part: uint32)

  function Wrap(x: int): uint32 {
    x % 0x1_0000_0000
  }

  function ScanChar(a: Acc, c: char): Acc {
    if c == '.' then Acc(Wrap(Wrap(a.sum + a.part) * 256), 0)
    else Acc(a.sum, Wrap(Wrap(a.part * 10) + (c as int - '0' as int)))
  }

  function Scan(a: Acc, s: string): Acc
    decreases s
  {
    if s == "" then a else Scan(ScanChar(a, s[0]), s[1..])
  }

  /** The value ip_into_uint gives to any string. */
  function IpToUint(s: string): uint32 {
    var a := Scan(Acc(0, 0), s);
    Wrap(a.sum + a.part)
  }

  lemma {:induction false} ScanAppend(a: Acc, u: string, v: string)
    ensures Scan(a, u + v) == Scan(Scan(a, u), v)
    decreases u
  {
    if u == "" {
      assert u + v == v;
    } else {
      ScanAppend(ScanChar(a, u[0]), u[1..], v);
      assert (u + v)[1..] == u[1..] + v;
    }
  }

  method IpIntoUint(s: string) returns (r: uint32)
    ensures r == IpToUint(s)
  {
    var sum: uint32, part: uint32 := 0, 0;
    var i := 0;
    while i < |s|
      invariant 0 <= i <= |s|
      invariant Scan(Acc(sum, part), s[i..]) == Scan(Acc(0, 0), s)
    {
      if s[i] == '.' {
        sum := Wrap(sum + part);
        part := 0;
        sum := Wrap(sum * 256);
      } else {
        part := Wrap(part * 10);
        part := Wrap(part + (s[i] as int - '0' as int));
      }
      i := i + 1;
    }
    r := Wrap(sum + part);
  }

  // ---- Decimal groups ----

  predicate AllDigits(g: string) {
    forall i :: 0 <= i < |g| ==> '0' <= g[i] <= '9'
  }

  /** The decimal value of a digit string; the empty string counts as zero. */
  function Value(g: string): nat
    requires AllDigits(g)
  {
    if g == "" then 0 else 10 * Value(g[..|g| - 1]) + (g[|g| - 1] as int - '0' as int)
  }

  /** What parseIP accepts between two dots. */
  predicate Group(g: string) {
    |g| <= 3 && AllDigits(g) && Value(g) <= 255
  }

  function Join(a: string, b: string, c: string, d: string): string {
    a + "." + (b + "." + (c + "." + d))
  }

  function Pack(a: byte, b: byte, c: byte, d: byte): uint32 {
    var hi: int, lo: int := Word(b, a), Word(d, c);
    hi * 0x1_0000 + lo
  }

  lemma {:induction false} ValueBound(g: string)
    requires |g| <= 3 && AllDigits(g)
    ensures Value(g) <= (if |g| == 0 then 0 else if |g| == 1 then 9 else if |g| == 2 then 99 else 999)
  {
    if |g| > 0 {
      ValueBound(g[..|g| - 1]);
    }
  }

  lemma {:induction false} ScanGroup(sum: uint32, g: string)
    requires |g| <= 3 && AllDigits(g)
    ensures Value(g) <= 999 && Scan(Acc(sum, 0), g) == Acc(sum, Value(g))
  {
    if |g| > 0 {
      var n := |g| - 1;
      ScanGroup(sum, g[..n]);
      ValueBound(g[..n]);
      assert g == g[..n] + [g[n]];
      ScanAppend(Acc(sum, 0), g[..n], [g[n]]);
      ScanOne(Acc(sum, Value(g[..n])), g[n]);
      ScanDigit(sum, Value(g[..n]), g[n]);
    }
  }

  lemma ScanDigit(sum: uint32, part: nat, c: char)
    requires part <= 99 && '0' <= c <= '9'
    ensures ScanChar(Acc(sum, part), c) == Acc(sum, 10 * part + (c as int - '0' as int))
  {
  }

  lemma ScanOne(a: Acc, c: char)
    ensures Scan(a, [c]) == ScanChar(a, c)
  {
  }

  lemma ScanGroupDot(sum: uint32, g: string, rest: string)
    requires Group(g) && (sum + 255) * 256 < 0x1_0000_0000
    ensures Scan(Acc(sum, 0), g + "." + rest) == Scan(Acc((sum + Value(g)) * 256, 0), rest)
  {
    hide Scan, ScanChar, AllDigits, Value;
    ScanAppend(Acc(sum, 0), g + ".", rest);
    ScanAppend(Acc(sum, 0), g, ".");
    ScanGroup(sum, g);
    ScanOne(Acc(sum, Value(g)), '.');
    ScanDot(sum, Value(g));
  }

  lemma ScanDot(sum: uint32, part: nat)
    requires part <= 255 && (sum + 255) * 256 < 0x1_0000_0000
    ensures ScanChar(Acc(sum, part), '.') == Acc((sum + part) * 256, 0)
  {
    hide Wrap;
    WrapSmall(sum + part);
    WrapSmall((sum + part) * 256);
  }

  lemma WrapSmall(x: int)
    requires 0 <= x < 0x1_0000_0000
    ensures Wrap(x) == x
  {
  }

  /** ip_into_uint on four dot-separated groups is the big-endian number they spell. */
  lemma ParseJoin(a: string, b: string, c: string, d: string)
    requires Group(a) && Group(b) && Group(c) && Group(d)
    ensures IpToUint(Join(a, b, c, d)) == Pack(Value(a), Value(b), Value(c), Value(d))
  {
    hide Scan, Value, Wrap;
    ScanFour(a, b, c, d);
    PackIsHorner(Value(a), Value(b), Value(c), Value(d));
  }

  lemma ScanTwo(sum: uint32, c: string, d: string)
    requires Group(c) && Group(d) && sum <= 0xFFFF00
    ensures Scan(Acc(sum, 0), c + "." + d) == Acc((sum + Value(c)) * 256, Value(d))
  {
    ScanGroupDot(sum, c, d);
    ScanGroup((sum + Value(c)) * 256, d);
  }

  lemma ScanThree(sum: uint32, b: string, c: string, d: string)
    requires Group(b) && Group(c) && Group(d) && sum <= 0xFF00
    ensures Scan(Acc(sum, 0), b + "." + (c + "." + d)) == Acc(((sum + Value(b)) * 256 + Value(c)) * 256, Value(d))
  {
    hide Scan, Value;
    ScanGroupDot(sum, b, c + "." + d);
    ScanTwo((sum + Value(b)) * 256, c, d);
  }

  lemma ScanFour(a: string, b: string, c: string, d: string)
    requires Group(a) && Group(b) && Group(c) && Group(d)
    ensures Scan(Acc(0, 0), Join(a, b, c, d)) == Acc(((Value(a) * 256 + Value(b)) * 256 + Value(c)) * 256, Value(d))
  {
    hide Scan, Value;
    ScanGroupDot(0, a, b + "." + (c + "." + d));
    ScanThree(Value(a) * 256, b, c, d);
  }

  lemma PackIsHorner(a: nat, b: nat, c: nat, d: nat)
    requires a < 256 && b < 256 && c < 256 && d < 256
    ensures Wrap(((a * 256 + b) * 256 + c) * 256 + d) == Pack(a, b, c, d)
  {
  }

  // ---- ipUint_into_str ----

  function Digit(n: nat): (c: char)
    requires n < 10
    ensures '0' <= c <= '9' && c as int - '0' as int == n
  {
    ('0' as int + n) as char
  }

  /** Canonical decimal: no leading zero, "0" for zero. */
  function Digits(n: nat): string {
    if n < 10 then [Digit(n)] else Digits(n / 10) + [Digit(n % 10)]
  }

  lemma {:induction false} DigitsValue(n: nat)
    ensures AllDigits(Digits(n)) && Value(Digits(n)) == n
  {
    if n < 10 {
      assert Digits(n)[..0] == "";
    } else {
      DigitsValue(n / 10);
      assert Digits(n)[..|Digits(n)| - 1] == Digits(n / 10);
    }
  }

  lemma OctetGroup(n: byte)
    ensures Group(Digits(n)) && Value(Digits(n)) == n
  {
    DigitsValue(n);
    if n >= 100 {
      assert |Digits(n / 10 / 10)| == 1;
    }
  }

  /** The group printed for what is left of the address: nothing once only zeros remain. */
  function Part(y: nat): string {
    if y == 0 then "" else Digits(y % 256)
  }

  /** The text ipUint_into_str produces. */
  function Print(x: uint32): string {
    Join(Part(x / 0x100_0000), Part(x / 0x1_0000), Part(x / 256), Part(x))
  }

  lemma PartGroup(y: nat)
    ensures Group(Part(y)) && Value(Part(y)) == y % 256
  {
    if y > 0 {
      OctetGroup(y % 256);
    }
  }

  method DecimalPart(p: byte) returns (s: string)
    ensures s == Digits(p)
  {
    s := "";
    var part: nat := p;
    s := [Digit(part % 10)] + s;
    part := part / 10;
    while part != 0
      invariant s != "" && (if part == 0 then s else Digits(part) + s) == Digits(p)
    {
      assert part >= 10 ==> Digits(part / 10) + ([Digit(part % 10)] + s) == Digits(part) + s;
      s := [Digit(part % 10)] + s;
      part := part / 10;
    }
  }

  method IpUintIntoStr(ipUint: uint32) returns (r: string)
    ensures r == Print(ipUint)
  {
    var ip_str := new string[4](_ => "");
    var i := 3;
    var ip: nat := ipUint;
    while ip != 0
      invariant -1 <= i <= 3
      invariant ip == (if i == 3 then ipUint else if i == 2 then ipUint / 256
                       else if i == 1 then ipUint / 0x1_0000 else if i == 0 then ipUint / 0x100_0000 else 0)
      invariant ip_str[3] == if i < 3 then Part(ipUint) else ""
      invariant ip_str[2] == if i < 2 then Part(ipUint / 256) else ""
      invariant ip_str[1] == if i < 1 then Part(ipUint / 0x1_0000) else ""
      invariant ip_str[0] == if i < 0 then Part(ipUint / 0x100_0000) else ""
      decreases ip
    {
      ip_str[i] := DecimalPart(ip % 256);
      ip := ip / 256;
      i := i - 1;
    }
    r := ip_str[0] + "." + ip_str[1] + "." + ip_str[2] + "." + ip_str[3];
    JoinFlat(ip_str[0], ip_str[1], ip_str[2], ip_str[3]);
  }

  lemma JoinFlat(a: string, b: string, c: string, d: string)
    ensures a + "." + b + "." + c + "." + d == Join(a, b, c, d)
  {
  }

  lemma PackOctets(x: uint32)
    ensures Pack(x / 0x100_0000, x / 0x1_0000 % 256, x / 256 % 256, x % 256) == x
    ensures x / 0x100_0000 % 256 == x / 0x100_0000
  {
    assert x / 0x1_0000 / 256 == x / 0x100_0000;
    assert x / 256 / 256 == x / 0x1_0000;
  }

  /** Parsing a printed address gives it back, for every 32-bit address. */
  lemma ParsePrint(x: uint32)
    ensures IpToUint(Print(x)) == x
  {
    PartGroup(x / 0x100_0000);
    PartGroup(x / 0x1_0000);
    PartGroup(x / 256);
    PartGroup(x);
    ParseJoin(Part(x / 0x100_0000), Part(x / 0x1_0000), Part(x / 256), Part(x));
    PackOctets(x);
  }

  /** Canonical dotted decimal of four octets. */
  function Canonical(a: byte, b: byte, c: byte, d: byte): string {
    Join(Digits(a), Digits(b), Digits(c), Digits(d))
  }

  /** Printing is canonical exactly when the first octet is non-zero. */
  lemma PrintCanonical(x: uint32)
    ensures (exists a: byte, b: byte, c: byte, d: byte :: Print(x) == Canonical(a, b, c, d)) <==> x >= 0x100_0000
  {
    if x >= 0x100_0000 {
      PackOctets(x);
      assert Print(x) == Canonical(x / 0x100_0000, x / 0x1_0000 % 256, x / 256 % 256, x % 256);
    } else {
      assert Part(x / 0x100_0000) == "";
      assert Print(x)[0] == '.';
      forall a: byte, b: byte, c: byte, d: byte
        ensures Print(x) != Canonical(a, b, c, d)
      {
        DigitsValue(a);
        assert Digits(a) != "";
        assert Canonical(a, b, c, d)[0] == Digits(a)[0];
      }
    }
  }

  /** Printing the parse of a canonical string with non-zero first octet gives the string back. */
  lemma PrintParse(a: byte, b: byte, c: byte, d: byte)
    requires a > 0
    ensures Print(IpToUint(Canonical(a, b, c, d))) == Canonical(a, b, c, d)
  {
    OctetGroup(a);
    OctetGroup(b);
    OctetGroup(c);
    OctetGroup(d);
    ParseJoin(Digits(a), Digits(b), Digits(c), Digits(d));
    var x := Pack(a, b, c, d);
    OctetsOfPack(x, a, b, c, d);
    PrintOctets(x, a, b, c, d);
  }

  lemma PrintOctets(x: uint32, a: byte, b: byte, c: byte, d: byte)
    requires x % 256 == d && x / 256 % 256 == c && x / 0x1_0000 % 256 == b && x / 0x100_0000 == a && a > 0
    ensures Print(x) == Canonical(a, b, c, d)
  {
    PackOctets(x);
  }

  lemma OctetsOfPack(x: uint32, a: byte, b: byte, c: byte, d: byte)
    requires x == Pack(a, b, c, d)
    ensures x % 256 == d && x / 256 % 256 == c && x / 0x1_0000 % 256 == b && x / 0x100_0000 == a
  {
    hide Word;
    OctetsOfWord(d, c);
    OctetsOfWord(b, a);
    HalvesOf(x, Word(b, a), Word(d, c));
  }

  lemma OctetsOfWord(lo: byte, hi: byte)
    ensures Word(lo, hi) % 256 == lo && Word(lo, hi) / 256 == hi
  {
  }

  lemma HalvesOf(x: nat, hi: nat, lo: nat)
    requires x == hi * 0x1_0000 + lo && lo < 0x1_0000
    ensures x % 256 == lo % 256 && x / 256 % 256 == lo / 256
    ensures x / 0x1_0000 == hi && x / 0x100_0000 == hi / 256
  {
    assert x / 256 == 256 * hi + lo / 256;
  }

  // ---- parseIP ----

  /** The fields of `s` that end in a dot; text after the last dot is dropped. */
  function Fields(s: string): seq<string> {
    if s == "" then []
    else if s[0] == '.' then [""] + Fields(s[1..])
    else
      var f := Fields(s[1..]);
      if f == [] then [] else [[s[0]] + f[0]] + f[1..]
  }

  /** The dot-separated groups of `s`. */
  function Groups(s: string): seq<string> {
    Fields(s + ".")
  }

  function PackFields(g: seq<string>): uint32
    requires FirstFour(g)
  {
    Pack(Value(g[0]), Value(g[1]), Value(g[2]), Value(g[3]))
  }

  predicate FirstFour(g: seq<string>) {
    |g| >= 4 && Group(g[0]) && Group(g[1]) && Group(g[2]) && Group(g[3])
  }

  predicate FourGroups(s: string) {
    |Groups(s)| == 4 && FirstFour(Groups(s))
  }

  predicate NoDot(s: string) {
    forall i :: 0 <= i < |s| ==> s[i] != '.'
  }

  lemma {:induction false} FieldsSplit(f: string, rest: string)
    requires NoDot(f)
    ensures Fields(f + "." + rest) == [f] + Fields(rest)
  {
    var s := f + "." + rest;
    if f == "" {
      assert s[1..] == rest;
    } else {
      assert s[1..] == f[1..] + "." + rest;
      FieldsSplit(f[1..], rest);
      assert [s[0]] + f[1..] == f;
      var t := Fields(s[1..]);
      assert [[s[0]] + t[0]] + t[1..] == [f] + Fields(rest);
    }
  }

  lemma {:induction false} NoFields(s: string)
    requires NoDot(s)
    ensures Fields(s) == []
  {
    if s != "" {
      NoFields(s[1..]);
    }
  }

  lemma {:induction false} FieldsFromGroups(s: string)
    requires |Fields(s + ".")| == 1
    ensures NoDot(s) && Fields(s + ".") == [s]
  {
    if s == "" {
      assert Fields(".") == [""] by { assert "."[1..] == ""; }
    } else {
      assert (s + ".")[1..] == s[1..] + ".";
      FieldsNonEmpty(s[1..]);
      if s[0] != '.' {
        FieldsFromGroups(s[1..]);
        assert [s[0]] + s[1..] == s;
      }
    }
  }

  lemma {:induction false} FieldsNonEmpty(s: string)
    ensures |Fields(s + ".")| > 0
  {
    if s == "" {
      assert "."[1..] == "";
    } else {
      assert (s + ".")[1..] == s[1..] + ".";
      FieldsNonEmpty(s[1..]);
    }
  }

  /** A string is its dot-terminated fields, each followed by a dot. */
  lemma {:induction false} PeelField(s: string)
    requires |Fields(s + ".")| > 1
    ensures exists f: string, rest: string :: NoDot(f) && s == f + "." + rest
  {
    if s != "" && s[0] == '.' {
      assert NoDot("") && s == "" + "." + s[1..];
    } else if s != "" {
      assert (s + ".")[1..] == s[1..] + ".";
      PeelField(s[1..]);
      var f: string, rest: string :| NoDot(f) && s[1..] == f + "." + rest;
      assert NoDot([s[0]] + f) && s == ([s[0]] + f) + "." + rest;
    } else {
      LoneDot();
    }
  }

  lemma LoneDot()
    ensures Fields("" + ".") == [""]
  {
  }

  /** What acceptance means: exactly the joins of four groups. */
  lemma AcceptedAreJoins(s: string)
    ensures FourGroups(s) <==>
            exists a: string, b: string, c: string, d: string ::
              Group(a) && Group(b) && Group(c) && Group(d) && s == Join(a, b, c, d)
  {
    if FourGroups(s) {
      var a, s1 := Peel(s);
      var b, s2 := Peel(s1);
      var c, d := Peel(s2);
      FieldsFromGroups(d);
      assert s == Join(a, b, c, d);
      assert Groups(s) == [a, b, c, d];
    }
    if a: string, b: string, c: string, d: string :|
      Group(a) && Group(b) && Group(c) && Group(d) && s == Join(a, b, c, d) {
      GroupsOfJoin(a, b, c, d);
    }
  }

  lemma Peel(s: string) returns (f: string, rest: string)
    requires |Groups(s)| > 1
    ensures NoDot(f) && s == f + "." + rest && Groups(s) == [f] + Groups(rest)
  {
    PeelField(s);
    f, rest :| NoDot(f) && s == f + "." + rest;
    GroupsStep(f, rest);
  }

  lemma GroupsOfJoin(a: string, b: string, c: string, d: string)
    requires Group(a) && Group(b) && Group(c) && Group(d)
    ensures Groups(Join(a, b, c, d)) == [a, b, c, d]
  {
    GroupsStep(a, b + "." + (c + "." + d));
    GroupsStep(b, c + "." + d);
    GroupsStep(c, d);
    GroupsLast(d);
  }

  lemma GroupsStep(f: string, rest: string)
    requires NoDot(f)
    ensures Groups(f + "." + rest) == [f] + Groups(rest)
  {
    assert f + "." + rest + "." == f + "." + (rest + ".");
    FieldsSplit(f, rest + ".");
  }

  lemma GroupsLast(f: string)
    requires NoDot(f)
    ensures Groups(f) == [f]
  {
    assert f + "." == f + "." + "";
    FieldsSplit(f, "");
  }

  /** std::string::find of a dot. */
  method FindDot(s: string, from: nat) returns (pos: int)
    requires from <= |s|
    ensures pos == -1 ==> NoDot(s[from..])
    ensures pos != -1 ==> from <= pos < |s| && s[pos] == '.' && NoDot(s[from..pos])
  {
    pos := from;
    while pos < |s| && s[pos] != '.'
      invariant from <= pos <= |s| && NoDot(s[from..pos])
    {
      assert s[from..pos + 1] == s[from..pos] + [s[pos]];
      pos := pos + 1;
    }
    if pos == |s| {
      assert s[from..pos] == s[from..];
      pos := -1;
    }
  }

  /** The digit loop of parseIP on one field. */
  method ParseGroup(f: string) returns (ok: bool, num: nat)
    requires |f| <= 3
    ensures ok <==> AllDigits(f)
    ensures ok ==> num == Value(f)
  {
    num := 0;
    var i := 0;
    while i < |f|
      invariant 0 <= i <= |f| && AllDigits(f[..i]) && num == Value(f[..i])
    {
      var d := f[i] as int - '0' as int;
      if d < 0 || d > 9 {
        return false, 0;
      }
      assert f[..i + 1][..i] == f[..i];
      num := num * 10 + d;
      i := i + 1;
    }
    assert f[..i] == f;
    ok := true;
  }

  /** parseIP: `text` is the argument after the call, which gains a dot, and `res` the result
      variable, written once four groups have been read even when more text follows. */
  method ParseIP(ip: string, res0: uint32) returns (ok: bool, res: uint32, text: string)
    ensures text == ip + "."
    ensures ok <==> FourGroups(ip)
    ensures res == if FirstFour(Groups(ip)) then PackFields(Groups(ip)) else res0
  {
    hide Value, AllDigits, Fields, NoDot, Pack;
    text := ip + ".";
    res := res0;
    ghost var all := Groups(ip);
    var dotPos := 0;
    var arr := new byte[4];
    var i := 0;
    while i < 4
      invariant 0 <= i <= 4 && dotPos <= |text|
      invariant i <= |all| && Fields(text[dotPos..]) == all[i..]
      invariant forall k :: 0 <= k < i ==> Group(all[k]) && arr[k] == Value(all[k])
      invariant i > 0 ==> dotPos > 0
    {
      var ndp := FindDot(text, dotPos);
      if ndp == -1 {
        NoFields(text[dotPos..]);
        return false, res, text;
      }
      var f := text[dotPos..ndp];
      FieldAt(text, dotPos, ndp);
      assert f == all[i] && all[i..][1..] == all[i + 1..];
      if ndp - dotPos > 3 {
        return false, res, text;
      }
      var digits, num := ParseGroup(f);
      if !digits || num > 255 {
        return false, res, text;
      }
      arr[i] := num;
      dotPos := ndp + 1;
      i := i + 1;
    }
    res := Pack(arr[0], arr[1], arr[2], arr[3]);
    ok := dotPos == |text|;
    assert ok <==> all[4..] == [] by {
      TailField(ip, dotPos);
    }
  }

  lemma FieldAt(text: string, from: nat, dot: nat)
    requires from <= dot < |text| && text[dot] == '.' && NoDot(text[from..dot])
    ensures Fields(text[from..]) == [text[from..dot]] + Fields(text[dot + 1..])
  {
    assert text[from..] == text[from..dot] + "." + text[dot + 1..];
    FieldsSplit(text[from..dot], text[dot + 1..]);
  }

  lemma TailField(ip: string, at: nat)
    requires at <= |ip| + 1
    ensures Fields((ip + ".")[at..]) == [] <==> at == |ip| + 1
  {
    if at <= |ip| {
      assert (ip + ".")[at..] == ip[at..] + ".";
      FieldsNonEmpty(ip[at..]);
    } else {
      assert (ip + ".")[at..] == "";
    }
  }

  /** Where parseIP accepts, the two parsers agree. */
  lemma ParsersAgree(s: string)
    requires FourGroups(s)
    ensures IpToUint(s) == PackFields(Groups(s))
  {
    AcceptedAreJoins(s);
    var a: string, b: string, c: string, d: string :|
      Group(a) && Group(b) && Group(c) && Group(d) && s == Join(a, b, c, d);
    GroupsOfJoin(a, b, c, d);
    ParseJoin(a, b, c, d);
  }

  /** parseIP accepts every printed address, with the value that was printed. */
  lemma PrintedIsAccepted(x: uint32)
    ensures FourGroups(Print(x)) && PackFields(Groups(Print(x))) == x
  {
    PartGroup(x / 0x100_0000);
    PartGroup(x / 0x1_0000);
    PartGroup(x / 256);
    PartGroup(x);
    GroupsOfJoin(Part(x / 0x100_0000), Part(x / 0x1_0000), Part(x / 256), Part(x));
    PackOctets(x);
  }
}
