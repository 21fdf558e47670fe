/** Camera serials and API regions as the bridge compares them (deploy/linux/runtime_settings.py). */
module Identity {
  import opened Wrappers

  predicate IsSpace(c: char) {
    var n := c as int;
    9 <= n <= 13 || 28 <= n <= 32 || n == 0x85 || n == 0xA0 || n == 0x1680 || 0x2000 <= n <= 0x200A
    || n == 0x2028 || n == 0x2029 || n == 0x202F || n == 0x205F || n == 0x3000
  }

  function StripLeft(s: string): string {
    if s != "" && IsSpace(s[0]) then StripLeft(s[1..]) else s
  }

  function StripRight(s: string): string {
    if s != "" && IsSpace(s[|s| - 1]) then StripRight(s[..|s| - 1]) else s
  }

  function Strip(s: string): string {
    StripRight(StripLeft(s))
  }

  function UpperChar(c: char): char {
    if 'a' <= c <= 'z' then (c as int - 32) as char else c
  }

  function LowerChar(c: char): char {
    if 'A' <= c <= 'Z' then (c as int + 32) as char else c
  }

  function Upper(s: string): string {
    seq(|s|, i requires 0 <= i < |s| => UpperChar(s[i]))
  }

  function Lower(s: string): string {
    seq(|s|, i requires 0 <= i < |s| => LowerChar(s[i]))
  }

  predicate HostChar(c: char) {
    'A' <= c <= 'Z' || 'a' <= c <= 'z' || '0' <= c <= '9' || c == '.' || c == '-'
  }

  predicate SerialChar(c: char) {
    'A' <= c <= 'Z' || 'a' <= c <= 'z' || '0' <= c <= '9' || c == '_' || c == '-'
  }

  predicate SerialOk(s: string) {
    7 <= |s| <= 64 && forall i :: 0 <= i < |s| ==> SerialChar(s[i])
  }

  function NormalizeSerial(s: string): string {
    Upper(Strip(s))
  }

  predicate HasDoubleDot(s: string) {
    exists i :: 0 <= i < |s| - 1 && s[i] == '.' && s[i + 1] == '.'
  }

  predicate Official(s: string) {
    s == "api.ys7.com" || (|s| >= 14 && s[|s| - 14..] == ".ezvizlife.com")
  }

  predicate HostOk(s: string) {
    1 <= |s| <= 253 && forall i :: 0 <= i < |s| ==> HostChar(s[i])
  }

  /** None stands for the error a bad region raises. */
  function NormalizeRegion(s: string): Option<string> {
    var region := Lower(Strip(s));
    if HostOk(region) && !HasDoubleDot(region) && Official(region) then Some(region) else None
  }

  // ---------------------------------------------------------------- what the normal forms identify

  /** Character by character equal, but for the case of ASCII letters. */
  predicate SameUpToCase(a: string, b: string) {
    |a| == |b| && forall i :: 0 <= i < |a| ==>
      || a[i] == b[i]
      || ('A' <= a[i] <= 'Z' && b[i] as int == a[i] as int + 32)
      || ('A' <= b[i] <= 'Z' && a[i] as int == b[i] as int + 32)
  }

  predicate AllSpace(s: string) {
    forall i :: 0 <= i < |s| ==> IsSpace(s[i])
  }

  /** The string between the white space, which begins and ends with something else. */
  predicate IsStripped(s: string, core: string, left: string, right: string) {
    && s == left + core + right && AllSpace(left) && AllSpace(right)
    && (core != "" ==> !IsSpace(core[0]) && !IsSpace(core[|core| - 1]))
  }

  lemma Together(a: string, b: string, c: string)
    ensures a + (b + c) == (a + b) + c
  {
  }

  lemma {:induction false} StripLeftIs(s: string) returns (left: string)
    ensures s == left + StripLeft(s) && AllSpace(left) && (StripLeft(s) != "" ==> !IsSpace(StripLeft(s)[0]))
  {
    hide IsSpace;
    if s != "" && IsSpace(s[0]) {
      var rest := StripLeftIs(s[1..]);
      left := [s[0]] + rest;
      Together([s[0]], rest, StripLeft(s[1..]));
      assert s == [s[0]] + s[1..];
    } else {
      left := "";
    }
  }

  lemma {:induction false} StripRightIs(s: string) returns (right: string)
    ensures s == StripRight(s) + right && AllSpace(right)
    ensures StripRight(s) != "" ==> !IsSpace(StripRight(s)[|StripRight(s)| - 1]) && StripRight(s)[0] == s[0]
  {
    hide IsSpace;
    if s != "" && IsSpace(s[|s| - 1]) {
      var rest := StripRightIs(s[..|s| - 1]);
      right := rest + [s[|s| - 1]];
      Together(StripRight(s[..|s| - 1]), rest, [s[|s| - 1]]);
      assert s == s[..|s| - 1] + [s[|s| - 1]];
    } else {
      right := "";
    }
  }

  lemma StripIs(s: string) returns (left: string, right: string)
    ensures IsStripped(s, Strip(s), left, right)
  {
    hide IsSpace, StripLeft, StripRight;
    left := StripLeftIs(s);
    right := StripRightIs(StripLeft(s));
  }

  /** Two serials are the same exactly if they agree up to letter case and the white space around them. */
  lemma SameSerialIff(a: string, b: string)
    ensures NormalizeSerial(a) == NormalizeSerial(b) <==> SameUpToCase(Strip(a), Strip(b))
  {
    hide Strip;
    var x, y := Strip(a), Strip(b);
    if Upper(x) == Upper(y) {
      forall i | 0 <= i < |x|
        ensures UpperChar(x[i]) == UpperChar(y[i])
      {
        assert Upper(x)[i] == Upper(y)[i];
      }
    }
  }

  /** A serial is good exactly if 7 to 64 letters, digits, dashes and underscores are left between the white space. */
  lemma SerialAcceptedIff(s: string)
    ensures SerialOk(NormalizeSerial(s)) <==>
            && 7 <= |Strip(s)| <= 64
            && forall i :: 0 <= i < |Strip(s)| ==>
                 var c := Strip(s)[i];
                 'A' <= c <= 'Z' || 'a' <= c <= 'z' || '0' <= c <= '9' || c == '_' || c == '-'
  {
    hide Strip;
    var x := Strip(s);
    assert forall i :: 0 <= i < |x| ==> Upper(x)[i] == UpperChar(x[i]);
    assert forall i :: 0 <= i < |x| ==> (SerialChar(Upper(x)[i]) <==> SerialChar(x[i]));
  }

  /** A region is one of the two official kinds of host, in lower case, or refused. */
  lemma RegionIff(s: string, region: string)
    ensures NormalizeRegion(s) == Some(region) <==>
            && SameUpToCase(region, Strip(s)) && (forall i :: 0 <= i < |region| ==> !('A' <= region[i] <= 'Z'))
            && 1 <= |region| <= 253 && (forall i :: 0 <= i < |region| ==> HostChar(region[i]))
            && !HasDoubleDot(region)
            && (region == "api.ys7.com" || (|region| >= 14 && region[|region| - 14..] == ".ezvizlife.com"))
  {
    hide Strip, HasDoubleDot;
    var x := Strip(s);
    if |region| == |x| && (forall i :: 0 <= i < |region| ==> !('A' <= region[i] <= 'Z')) && SameUpToCase(region, x) {
      assert Lower(x) == region;
    }
    assert forall i :: 0 <= i < |x| ==> Lower(x)[i] == LowerChar(x[i]);
  }

  lemma NothingToStrip(s: string)
    requires s != "" ==> !IsSpace(s[0]) && !IsSpace(s[|s| - 1])
    ensures Strip(s) == s
  {
  }

  /** A stored serial normalises to itself. */
  lemma SerialIsStable(s: string)
    requires SerialOk(NormalizeSerial(s))
    ensures NormalizeSerial(NormalizeSerial(s)) == NormalizeSerial(s)
  {
    var n := NormalizeSerial(s);
    assert SerialChar(n[0]) && SerialChar(n[|n| - 1]);
    NothingToStrip(n);
    hide Strip;
    forall i | 0 <= i < |n|
      ensures UpperChar(n[i]) == n[i]
    {
      assert n[i] == UpperChar(Strip(s)[i]);
    }
  }

  /** A stored region normalises to itself. */
  lemma RegionIsStable(s: string)
    requires NormalizeRegion(s).Some?
    ensures NormalizeRegion(NormalizeRegion(s).value) == NormalizeRegion(s)
  {
    var n := NormalizeRegion(s).value;
    assert HostChar(n[0]) && HostChar(n[|n| - 1]);
    NothingToStrip(n);
    hide Strip, Official, HasDoubleDot;
    forall i | 0 <= i < |n|
      ensures LowerChar(n[i]) == n[i]
    {
      assert n[i] == LowerChar(Strip(s)[i]);
    }
    assert Lower(n) == n;
  }
}
