/** The host names of parsed URLs, as far as lower case letters, digits, dots and dashes can
    spell them (URL Standard, section 3.5). */
module UrlHosts {
  import opened Prelude

  predicate IsHostChar(c: char) {
    'a' <= c <= 'z' || '0' <= c <= '9' || c == '.' || c == '-'
  }

  function Decimal(digits: string): int {
    if digits == "" then 0 else 10 * Decimal(digits[..|digits| - 1]) + (digits[|digits| - 1] as int - '0' as int)
  }

  /** A number as a URL shows it: decimal, without leading zeros. */
  predicate IsNumber(s: string) {
    s != "" && (forall c :: c in s ==> '0' <= c <= '9') && (s[0] == '0' ==> |s| == 1)
  }

  /** The part behind the last dot. */
  function LastLabel(host: string): string {
    if host == "" || host[|host| - 1] == '.' then "" else LastLabel(host[..|host| - 1]) + [host[|host| - 1]]
  }

  /** The part that decides, one trailing dot aside. */
  function DecidingLabel(host: string): string {
    LastLabel(if host != "" && host[|host| - 1] == '.' then host[..|host| - 1] else host)
  }

  predicate IsNumeric(s: string) {
    || (s != "" && forall c :: c in s ==> '0' <= c <= '9')
    || ("0x" <= s && forall c :: c in s[2..] ==> '0' <= c <= '9' || 'a' <= c <= 'f')
  }

  /** Such a host is read as an address or refused. */
  predicate EndsInNumber(host: string) {
    IsNumeric(DecidingLabel(host))
  }

  function FirstDot(s: string): (n: nat)
    ensures n <= |s|
  {
    if s == "" || s[0] == '.' then 0 else 1 + FirstDot(s[1..])
  }

  predicate IsOctet(s: string) {
    IsNumber(s) && |s| <= 3 && Decimal(s) <= 255
  }

  /** The parts between the dots, empty ones included. */
  function Parts(s: string): (parts: seq<string>)
    ensures parts != []
  {
    var dot := FirstDot(s);
    if dot == |s| then [s] else [s[..dot]] + Parts(s[dot + 1..])
  }

  predicate AreOctets(parts: seq<string>) {
    forall i :: 0 <= i < |parts| ==> IsOctet(parts[i])
  }

  /** An address in its canonical form: four numbers up to 255. */
  predicate IsAddress(host: string) {
    |Parts(host)| == 4 && AreOctets(Parts(host))
  }

  /** The end of one, from behind a dot. */
  predicate EndsAddress(name: string) {
    |Parts(name)| < 4 && AreOctets(Parts(name))
  }

  /** The names that the URL parser leaves as they are. Names without punycode always are. */
  type Domains = string -> bool

  ghost predicate LeavesPlain(domains: Domains) {
    forall host :: IsPlain(host) ==> domains(host)
  }

  predicate IsPlain(host: string) {
    && host != "" && (forall c :: c in host ==> IsHostChar(c))
    && !("xn--" <= host) && forall i :: 0 <= i < |host| && host[i] == '.' ==> !("xn--" <= host[i + 1..])
  }

  /** A host name as the URL parser gives it: an address in its canonical form, or a name. */
  predicate IsParsedHost(domains: Domains, host: string) {
    if EndsInNumber(host) then IsAddress(host) else domains(host)
  }

  /** Some parsed host ends in a dot and this name. */
  ghost predicate EndsSomeHost(domains: Domains, name: string) {
    if EndsInNumber(name) then EndsAddress(name) else exists start :: domains(start + ("." + name))
  }

  // ---------------------------------------------------------------- characters and numbers

  lemma LetterChars(c: char)
    ensures 'a' <= c <= 'z' <==> c in "abcdefghijklmnopqrstuvwxyz"
  {
  }

  lemma HostChars(c: char)
    ensures IsHostChar(c) <==> c in "abcdefghijklmnopqrstuvwxyz" || c in "0123456789" || c in ".-"
  {
    LetterChars(c);
    DigitChars(c);
  }

  lemma DigitChars(c: char)
    ensures '0' <= c <= '9' <==> c in "0123456789"
    ensures '0' <= c <= '9' || 'a' <= c <= 'f' <==> c in "0123456789abcdef"
  {
  }

  /** A label reads as a number if it is made of decimal digits, or of hexadecimal ones behind 0x. */
  lemma NumericIs(part: string)
    ensures IsNumeric(part) <==>
            || (|part| > 0 && forall c :: c in part ==> c in "0123456789")
            || (|part| > 1 && part[0] == '0' && part[1] == 'x' && forall c :: c in part[2..] ==> c in "0123456789abcdef")
  {
    forall c
      ensures '0' <= c <= '9' <==> c in "0123456789"
      ensures '0' <= c <= '9' || 'a' <= c <= 'f' <==> c in "0123456789abcdef"
    {
      DigitChars(c);
    }
  }

  function Digit(d: nat): char
    requires d < 10
  {
    ('0' as int + d) as char
  }

  /** A number in decimal. */
  function Shown(n: nat): string {
    if n < 10 then [Digit(n)] else Shown(n / 10) + [Digit(n % 10)]
  }

  lemma DecimalOfMore(digits: string, d: nat)
    requires d < 10
    ensures Decimal(digits + [Digit(d)]) == 10 * Decimal(digits) + d
  {
    assert (digits + [Digit(d)])[..|digits|] == digits;
  }

  /** What shows a number is one, and reads as it. */
  lemma {:induction false} ShownIsNumber(n: nat)
    ensures IsNumber(Shown(n)) && Decimal(Shown(n)) == n
    ensures n > 0 ==> Shown(n)[0] != '0'
  {
    if n < 10 {
      DecimalOfMore("", n);
      assert "" + [Digit(n)] == [Digit(n)];
    } else {
      ShownIsNumber(n / 10);
      DecimalOfMore(Shown(n / 10), n % 10);
    }
  }

  lemma ShownOfMore(n: nat, d: nat)
    requires n > 0 && d < 10
    ensures Shown(10 * n + d) == Shown(n) + [Digit(d)]
  {
    assert (10 * n + d) / 10 == n && (10 * n + d) % 10 == d;
  }

  lemma IsNumberBefore(s: string)
    requires IsNumber(s) && |s| > 1
    ensures IsNumber(s[..|s| - 1]) && s[..|s| - 1][0] == s[0] && s[0] != '0'
  {
    var before := s[..|s| - 1];
    assert before[0] == s[0];
    forall c | c in before
      ensures '0' <= c <= '9'
    {
      assert c in s;
    }
  }

  /** And every number is what shows its value. */
  lemma {:induction false} NumberIsShown(s: string)
    requires IsNumber(s)
    ensures Decimal(s) >= 0 && s == Shown(Decimal(s))
  {
    var before, d := s[..|s| - 1], s[|s| - 1] as int - '0' as int;
    assert s[|s| - 1] in s && s == before + [Digit(d)];
    DecimalOfMore(before, d);
    if before == "" {
      assert s == [Digit(d)];
    } else {
      IsNumberBefore(s);
      NumberIsShown(before);
      FirstDigit(before, Decimal(before));
      ShownOfMore(Decimal(before), d);
    }
  }

  lemma FirstDigit(s: string, n: nat)
    requires s == Shown(n) && s[0] != '0'
    ensures n > 0
  {
    assert Shown(0) == ['0'];
  }

  /** The parts of an address are the numbers from 0 to 255. */
  lemma OctetIs(s: string)
    ensures IsOctet(s) <==> exists n: nat :: n <= 255 && s == Shown(n)
  {
    if IsOctet(s) {
      NumberIsShown(s);
    }
    if n: nat :| n <= 255 && s == Shown(n) {
      ShownIsNumber(n);
      assert |Shown(n)| <= 3 by {
        assert n / 10 / 10 < 10;
        assert |Shown(n / 10 / 10)| == 1;
        assert |Shown(n / 10)| <= 2;
      }
    }
  }

  // ---------------------------------------------------------------- ends of hosts

  lemma {:induction false} LastLabelBehind(start: string, rest: string)
    ensures LastLabel(start + ("." + rest)) == LastLabel(rest)
    decreases |rest|
  {
    var all := start + ("." + rest);
    if rest != "" {
      var before := rest[..|rest| - 1];
      assert all[|all| - 1] == rest[|rest| - 1];
      assert all[..|all| - 1] == start + ("." + before);
      LastLabelBehind(start, before);
    }
  }

  lemma DecidingLabelBehind(start: string, rest: string)
    requires rest != ""
    ensures DecidingLabel(start + ("." + rest)) == DecidingLabel(rest)
  {
    var all := start + ("." + rest);
    assert all[|all| - 1] == rest[|rest| - 1];
    if rest[|rest| - 1] == '.' {
      assert all[..|all| - 1] == start + ("." + rest[..|rest| - 1]);
      LastLabelBehind(start, rest[..|rest| - 1]);
    } else {
      LastLabelBehind(start, rest);
    }
  }

  lemma {:induction false} FirstDotBehind(start: string, rest: string)
    ensures FirstDot(start + ("." + rest)) == FirstDot(start)
  {
    if start == "" {
      assert start + ("." + rest) == "." + rest;
    } else if start[0] != '.' {
      assert (start + ("." + rest))[1..] == start[1..] + ("." + rest);
      FirstDotBehind(start[1..], rest);
    }
  }

  /** What stands behind a dot adds its parts. */
  lemma {:induction false} PartsBehind(start: string, rest: string)
    ensures Parts(start + ("." + rest)) == Parts(start) + Parts(rest)
    decreases |start|
  {
    var all, dot := start + ("." + rest), FirstDot(start);
    FirstDotBehind(start, rest);
    assert all[..dot] == start[..dot];
    if dot == |start| {
      assert all[dot + 1..] == rest;
    } else {
      assert all[dot + 1..] == start[dot + 1..] + ("." + rest);
      PartsBehind(start[dot + 1..], rest);
      Assoc([start[..dot]], Parts(start[dot + 1..]), Parts(rest));
    }
  }

  lemma PartsOfOne(s: string)
    requires forall c :: c in s ==> c != '.'
    ensures FirstDot(s) == |s| && Parts(s) == [s]
  {
    if s != "" {
      assert s[0] in s && forall c :: c in s[1..] ==> c in s;
      PartsOfOne(s[1..]);
    }
    assert s[..|s|] == s;
  }

  lemma OneIsOctet()
    ensures IsOctet("1")
  {
    assert "1"[..0] == "";
    assert Decimal("") == 0;
  }

  lemma Regroup(start: string, rest: string)
    ensures start + ("." + ("1" + ("." + rest))) == (start + ".1") + ("." + rest)
  {
  }

  lemma OneMoreOctet(rest: string)
    requires EndsAddress(rest)
    ensures |Parts("1" + ("." + rest))| == |Parts(rest)| + 1 && AreOctets(Parts("1" + ("." + rest)))
  {
    PartsBehind("1", rest);
    PartsOfOne("1");
    OneIsOctet();
    assert forall i :: 1 <= i <= |Parts(rest)| ==> (["1"] + Parts(rest))[i] == Parts(rest)[i - 1];
  }

  /** A run of fewer than four numbers ends some address. */
  lemma {:induction false} SomeAddress(rest: string) returns (start: string)
    requires EndsAddress(rest)
    ensures IsAddress(start + ("." + rest))
    decreases 4 - |Parts(rest)|
  {
    var longer := "1" + ("." + rest);
    OneMoreOctet(rest);
    if |Parts(longer)| == 4 {
      start := "1";
    } else {
      start := SomeAddress(longer);
      Regroup(start, rest);
      start := start + ".1";
    }
  }

  lemma EndOfAddress(start: string, name: string)
    requires IsAddress(start + ("." + name))
    ensures EndsAddress(name)
  {
    PartsBehind(start, name);
    assert forall i :: 0 <= i < |Parts(name)| ==> (Parts(start) + Parts(name))[|Parts(start)| + i] == Parts(name)[i];
  }

  lemma EndIsLive(domains: Domains, start: string, name: string, hostname: string)
    requires name != "" && IsParsedHost(domains, hostname)
    requires |hostname| >= |"." + name| && hostname[|hostname| - |"." + name|..] == "." + name
    requires start == hostname[..|hostname| - |"." + name|]
    ensures EndsSomeHost(domains, name)
  {
    assert hostname == start + ("." + name);
    DecidingLabelBehind(start, name);
    if EndsInNumber(name) {
      EndOfAddress(start, name);
    }
  }

  lemma SomeHost(domains: Domains, name: string) returns (start: string)
    requires name != "" && EndsSomeHost(domains, name)
    ensures IsParsedHost(domains, start + ("." + name))
  {
    if EndsInNumber(name) {
      start := SomeAddress(name);
    } else {
      start :| domains(start + ("." + name));
    }
    DecidingLabelBehind(start, name);
  }

  // ---------------------------------------------------------------- plain names

  lemma CharsBehind(name: string, c: char)
    requires (forall d :: d in name ==> IsHostChar(d)) && c in "a" + ("." + name)
    ensures IsHostChar(c)
  {
    assert c == 'a' || c == '.' || c in name;
  }

  /** What stands behind a dot of the longer name is the name, or stands behind one of its dots. */
  lemma DotsBehind(name: string, i: nat)
    requires i < |name| + 2 && ("a" + ("." + name))[i] == '.'
    ensures i > 0
    ensures ("a" + ("." + name))[i + 1..] == if i == 1 then name else name[i - 1..]
    ensures i > 1 ==> name[i - 2] == '.'
  {
    assert ("a" + ("." + name))[0] == 'a';
  }

  lemma PlainBehind(name: string)
    requires IsPlain(name)
    ensures IsPlain("a" + ("." + name))
  {
    var longer := "a" + ("." + name);
    assert longer[0] == 'a';
    forall i | 0 <= i < |longer| && longer[i] == '.'
      ensures !("xn--" <= longer[i + 1..])
    {
      DotsBehind(name, i);
      if i > 1 {
        assert name[i - 2 + 1..] == name[i - 1..];
      }
    }
    forall c | c in longer
      ensures IsHostChar(c)
    {
      CharsBehind(name, c);
    }
  }

  lemma PlainEnds(domains: Domains, name: string)
    requires LeavesPlain(domains) && IsPlain(name)
    ensures EndsSomeHost(domains, name) <==> (EndsInNumber(name) ==> EndsAddress(name))
  {
    PlainBehind(name);
    assert domains("a" + ("." + name));
  }

  lemma ShortIsNoAddress(domains: Domains)
    ensures !IsParsedHost(domains, "127.1")
  {
    assert "127.1" == "127" + ("." + "1");
    PartsBehind("127", "1");
    PartsOfOne("127");
    PartsOfOne("1");
    DecidingLabelBehind("127", "1");
    OneIsNumeric();
  }

  lemma OneIsNumeric()
    ensures IsNumeric(DecidingLabel("1"))
  {
    assert "1"[..0] == "";
    assert LastLabel("") == "";
    assert LastLabel("1") == "1";
  }
}
