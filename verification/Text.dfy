/** Text shared by every other module.

    The daemon's strings are byte strings.  They are modelled as Dafny strings,
    one character per byte; where the numeric value of a byte matters, `IsByte`
    says that it is below 256. */
module Text {

  datatype Option<+T> = None | Some(value: T)

  /** A value read from the front of some input, and the input after it. */
  datatype Read<+T> = Read(value: T, rest: string)

  predicate IsByte(c: char) { c as int < 256 }

  predicate AllBytes(s: string) { forall i :: 0 <= i < |s| ==> IsByte(s[i]) }

  predicate EndsWith(s: string, suffix: string) {
    |suffix| <= |s| && s[|s| - |suffix|..] == suffix
  }

  /** Index of the first `c` in `s`, or the length of `s` when there is none. */
  function IndexOf(s: string, c: char): (k: nat)
    ensures k <= |s|
    ensures k < |s| ==> s[k] == c
  {
    if s == "" || s[0] == c then 0 else 1 + IndexOf(s[1..], c)
  }

  /** Nothing before the index found is the character sought. */
  lemma {:induction false} IndexIsFirst(s: string, c: char)
    ensures c !in s[..IndexOf(s, c)] && (IndexOf(s, c) == |s| <==> c !in s)
  {
    if s != "" && s[0] != c {
      IndexIsFirst(s[1..], c);
      assert s == [s[0]] + s[1..];
      assert s[..IndexOf(s, c)] == [s[0]] + s[1..][..IndexOf(s[1..], c)];
    }
  }

  /** The index found depends only on what precedes it. */
  lemma {:induction false} IndexOfIs(s: string, c: char, k: nat)
    requires k <= |s| && (k < |s| ==> s[k] == c) && c !in s[..k]
    ensures IndexOf(s, c) == k
  {
    if k > 0 {
      assert s[..k] == [s[0]] + s[1..][..k - 1];
      assert s[0] in s[..k];
      IndexOfIs(s[1..], c, k - 1);
    }
  }

  lemma {:induction false} LastApart<T>(a: seq<T>, x: T, b: seq<T>, y: T)
    requires a + [x] == b + [y]
    ensures a == b && x == y
  {
    assert |a| == |b| && (a + [x])[|a|] == x && (b + [y])[|b|] == y;
    forall i | 0 <= i < |a| ensures a[i] == b[i] { assert (a + [x])[i] == (b + [y])[i]; }
  }

  lemma {:induction false} Regroup(a: string, b: string, c: string, d: string)
    ensures a + b + c + d == a + (b + (c + d))
    ensures a + b + c == a + (b + c)
  {
  }

  function Zeros(n: nat): (z: string)
    ensures |z| == n && forall i :: 0 <= i < n ==> z[i] == '\0'
  {
    seq(n, _ => '\0')
  }

  // ── UTF-8 ────────────────────────────────────────────────────────────────

  predicate InRange(c: char, lo: int, hi: int) { lo <= c as int <= hi }

  /** Length of the UTF-8 character at the front of `s`, or 0; the table of
      well-formed sequences of section 4 of RFC 3629. */
  function Utf8Head(s: string): (n: nat)
    ensures n <= |s|
  {
    if s == "" then 0
    else if InRange(s[0], 0, 0x7F) then 1
    else if |s| >= 2 && InRange(s[0], 0xC2, 0xDF) && Continues(s[1]) then 2
    else if |s| >= 3 && InRange(s[0], 0xE0, 0xEF) && Continues(s[1]) && Continues(s[2])
            && (s[0] as int == 0xE0 ==> s[1] as int >= 0xA0) && (s[0] as int == 0xED ==> s[1] as int < 0xA0) then 3
    else if |s| >= 4 && InRange(s[0], 0xF0, 0xF4) && Continues(s[1]) && Continues(s[2]) && Continues(s[3])
            && (s[0] as int == 0xF0 ==> s[1] as int >= 0x90) && (s[0] as int == 0xF4 ==> s[1] as int < 0x90) then 4
    else 0
  }

  predicate IsUtf8(s: string)
    decreases |s|
  {
    s == "" || (Utf8Head(s) > 0 && IsUtf8(s[Utf8Head(s)..]))
  }

  // ── '/'-separated paths ──────────────────────────────────────────────────

  /** A UTF-8 continuation byte. */
  predicate Continues(c: char) { 0x80 <= c as int < 0xC0 }

  /** A path component: not empty, free of '/', and starting a UTF-8 character. */
  predicate IsName(s: string) { s != "" && '/' !in s && !Continues(s[0]) }

  predicate AllNames(parts: seq<string>) {
    forall i :: 0 <= i < |parts| ==> IsName(parts[i])
  }

  function Join(parts: seq<string>): string {
    if |parts| == 0 then ""
    else if |parts| == 1 then parts[0]
    else parts[0] + "/" + Join(parts[1..])
  }

  lemma {:induction false} JoinNonEmpty(parts: seq<string>)
    requires parts != [] && AllNames(parts)
    ensures Join(parts) != ""
  {
  }

  lemma {:induction false} JoinAppend(parts: seq<string>, last: string)
    requires parts != []
    ensures Join(parts + [last]) == Join(parts) + "/" + last
  {
    if |parts| > 1 {
      JoinAppend(parts[1..], last);
      assert (parts + [last])[1..] == parts[1..] + [last];
    }
  }

  lemma {:induction false} JoinConcat(a: seq<string>, b: seq<string>)
    requires a != [] && b != []
    ensures Join(a + b) == Join(a) + "/" + Join(b)
  {
    if |a| == 1 {
      assert (a + b)[1..] == b;
    } else {
      JoinConcat(a[1..], b);
      assert (a + b)[1..] == a[1..] + b;
      calc {
        Join(a + b);
        a[0] + "/" + Join((a + b)[1..]);
        a[0] + "/" + (Join(a[1..]) + "/" + Join(b));
        (a[0] + "/" + Join(a[1..])) + "/" + Join(b);
      }
    }
  }

  /** A joined path determines its components: different trees of names give
      different path strings. */
  lemma {:induction false} JoinInjective(a: seq<string>, b: seq<string>)
    requires AllNames(a) && AllNames(b)
    requires Join(a) == Join(b)
    ensures a == b
  {
    if a == [] || b == [] {
      if a != [] { JoinNonEmpty(a); }
      if b != [] { JoinNonEmpty(b); }
    } else {
      HeadOfJoin(a);
      HeadOfJoin(b);
      assert a[0] == b[0];
      if |a| == 1 || |b| == 1 {
        assert |a| == |b| == 1;
      } else {
        var rest := Join(a)[|a[0]| + 1..];
        assert rest == Join(a[1..]);
        assert rest == Join(b[1..]);
        JoinInjective(a[1..], b[1..]);
        assert a == [a[0]] + a[1..] && b == [b[0]] + b[1..];
      }
    }
  }

  /** The first component is what precedes the first '/'. */
  lemma {:induction false} HeadOfJoin(parts: seq<string>)
    requires parts != [] && AllNames(parts)
    ensures var k := IndexOf(Join(parts), '/');
            && parts[0] == Join(parts)[..k]
            && (k == |Join(parts)| <==> |parts| == 1)
  {
    var j := Join(parts);
    if |parts| == 1 {
      assert '/' !in j;
    } else {
      assert j == parts[0] + ("/" + Join(parts[1..]));
      assert j[..|parts[0]|] == parts[0];
      IndexOfIs(j, '/', |parts[0]|);
    }
  }

  function ChildPath(dirPath: string, name: string): string {
    if dirPath == "" then name else dirPath + "/" + name
  }

  function LastSlash(path: string): (r: Option<nat>)
    ensures r.Some? ==> r.value < |path|
  {
    if path == "" then None
    else if path[|path| - 1] == '/' then Some(|path| - 1)
    else LastSlash(path[..|path| - 1])
  }

  /** What precedes the last '/'. */
  function ParentPath(path: string): Option<string> {
    var slash := LastSlash(path); if slash.None? then None else Some(path[..slash.value])
  }

  lemma {:induction false} LastSlashIs(a: string, name: string)
    requires '/' !in name
    ensures LastSlash(a + "/" + name) == Some(|a|)
    ensures LastSlash(name) == None
  {
    if name == "" {
      assert a + "/" + name == a + "/";
    } else {
      var path, short := a + "/" + name, name[..|name| - 1];
      LastSlashIs(a, short);
      assert path[..|path| - 1] == a + "/" + short;
    }
  }

  lemma {:induction false} ParentOfJoin(parts: seq<string>, last: string)
    requires AllNames(parts) && IsName(last)
    ensures ParentPath(Join(parts + [last])) == if parts == [] then None else Some(Join(parts))
  {
    LastSlashIs(Join(parts), last);
    if parts == [] {
      assert parts + [last] == [last];
    } else {
      JoinAppend(parts, last);
      assert (Join(parts) + "/" + last)[..|Join(parts)|] == Join(parts);
    }
  }

  /** What lies between slashes, without empty parts. */
  function Parts(path: string): seq<string>
    decreases |path|
  {
    var k := IndexOf(path, '/');
    (if k == 0 then [] else [path[..k]]) + if k == |path| then [] else Parts(path[k + 1..])
  }

  lemma {:induction false} FirstPart(name: string, rest: string)
    requires IsName(name)
    ensures Parts(name + "/" + rest) == [name] + Parts(rest)
  {
    var path := name + "/" + rest;
    assert path[..|name|] == name && path[|name| + 1..] == rest;
    IndexOfIs(path, '/', |name|);
  }

  lemma {:induction false} OnlyPart(name: string)
    requires IsName(name)
    ensures Parts(name) == [name]
  {
    assert name[..|name|] == name;
    IndexOfIs(name, '/', |name|);
  }

  lemma {:induction false} PartsOfJoin(parts: seq<string>)
    requires AllNames(parts)
    ensures Parts(Join(parts)) == parts
  {
    if |parts| == 1 {
      OnlyPart(parts[0]);
    } else if |parts| > 1 {
      PartsOfJoin(parts[1..]);
      FirstPart(parts[0], Join(parts[1..]));
      assert parts == [parts[0]] + parts[1..];
    }
  }

  predicate Below(path: string, dir: string) { dir + "/" <= path }

  /** A joined path lies below another exactly when its components extend the other's. */
  lemma {:induction false} BelowIsPrefix(a: seq<string>, b: seq<string>)
    requires a != [] && AllNames(a) && AllNames(b)
    ensures Below(Join(b), Join(a)) <==> a < b
  {
    if b != [] {
      HeadOfJoin(a);
      HeadOfJoin(b);
      var ja, jb, k := Join(a), Join(b), |a[0]|;
      if Below(jb, ja) {
        assert jb[..k] == (ja + "/")[..k] == a[0];
        assert jb[k] == (ja + "/")[k] == '/';
        IndexOfIs(jb, '/', k);
      }
      if |a| > 1 && |b| > 1 && a[0] == b[0] {
        BelowIsPrefix(a[1..], b[1..]);
        assert ja + "/" == (a[0] + "/") + (Join(a[1..]) + "/");
        assert jb == (a[0] + "/") + Join(b[1..]);
        PrefixCancels(a[0] + "/", Join(a[1..]) + "/", Join(b[1..]));
        assert a[1..] < b[1..] <==> a < b by {
          assert a == [a[0]] + a[1..] && b == [b[0]] + b[1..];
        }
      } else if |b| > 1 && a[0] == b[0] {
        assert jb == (a[0] + "/") + Join(b[1..]);
      }
    }
  }

  lemma {:induction false} PrefixCancels(head: string, x: string, y: string)
    ensures head + x <= head + y <==> x <= y
  {
    assert (head + y)[|head|..] == y;
    if head + x <= head + y {
      assert (head + x)[|head|..] == x;
      assert forall i :: 0 <= i < |x| ==> x[i] == (head + x)[|head| + i] == (head + y)[|head| + i] == y[i];
    }
  }

  // ── Decimal numbers ──────────────────────────────────────────────────────

  const U64: nat := 0x1_0000_0000_0000_0000
  const I64: nat := 0x8000_0000_0000_0000

  predicate IsDigit(c: char) { '0' <= c <= '9' }

  predicate AllDigits(s: string) {
    s == "" || (IsDigit(s[|s| - 1]) && AllDigits(s[..|s| - 1]))
  }

  lemma {:induction false} DigitsOnly(s: string, c: char)
    requires AllDigits(s) && !IsDigit(c)
    ensures c !in s
  {
    if s != "" {
      DigitsOnly(s[..|s| - 1], c);
      assert s == s[..|s| - 1] + [s[|s| - 1]];
    }
  }

  function Digit(d: nat): (c: char)
    requires d < 10
    ensures IsDigit(c) && c as int - '0' as int == d
  {
    (48 + d) as char
  }

  /** Decimal form of a natural number, without leading zeros. */
  function ToDec(n: nat): (s: string)
    ensures s != "" && AllDigits(s) && IsDigit(s[0])
  {
    if n < 10 then
      assert [Digit(n)][..0] == "";
      [Digit(n)]
    else
      var front := ToDec(n / 10);
      assert (front + [Digit(n % 10)])[..|front|] == front;
      front + [Digit(n % 10)]
  }

  /** Decimal form of a signed number, as Rust's `{}` and `std::to_string` print it. */
  function ToDecInt(i: int): (s: string)
    ensures s != ""
    ensures i < 0 ==> s[0] == '-'
  {
    if i < 0 then "-" + ToDec(-i) else ToDec(i)
  }

  function DigitsValue(s: string): (n: nat)
    requires AllDigits(s)
  {
    if s == "" then 0
    else DigitsValue(s[..|s| - 1]) * 10 + (s[|s| - 1] as int - '0' as int)
  }

  lemma {:induction false} DecRoundTrip(n: nat)
    ensures DigitsValue(ToDec(n)) == n
  {
    if n >= 10 {
      DecRoundTrip(n / 10);
      assert ToDec(n) == ToDec(n / 10) + [Digit(n % 10)];
      assert ToDec(n)[..|ToDec(n)| - 1] == ToDec(n / 10);
    } else {
      assert ToDec(n)[..0] == "";
    }
  }

  /** Rust's `str::parse` for an unsigned type holding values below `limit`:
      one optional '+', at least one digit, nothing else, no overflow. */
  function ParseUnsigned(s: string, limit: nat): (r: Option<nat>)
    ensures r.Some? ==> r.value < limit
  {
    var digits := if s != "" && s[0] == '+' then s[1..] else s;
    if digits == "" || !AllDigits(digits) then None
    else if DigitsValue(digits) < limit then Some(DigitsValue(digits)) else None
  }

  lemma {:induction false} ParseDec(n: nat, limit: nat)
    ensures ParseUnsigned(ToDec(n), limit) == if n < limit then Some(n) else None
  {
    DecRoundTrip(n);
  }

  // ── Hexadecimal digits ───────────────────────────────────────────────────

  predicate IsHex(c: char) { IsDigit(c) || 'a' <= c <= 'f' || 'A' <= c <= 'F' }

  function HexValue(c: char): (n: nat)
    requires IsHex(c)
    ensures n < 16
  {
    if IsDigit(c) then c as int - 48 else if 'a' <= c then c as int - 87 else c as int - 55
  }
}
