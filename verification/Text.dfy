/** The parts of Go's strings, strconv and net that the endpoint format rests on. */
module Text {
  import opened Bytes

  /** unicode.IsSpace. */
  predicate IsSpace(c: char)
  {
    var u := c as int;
    (0x09 <= u <= 0x0D) || u == 0x20 || u == 0x85 || u == 0xA0 || u == 0x1680 || (0x2000 <= u <= 0x200A)
    || u == 0x2028 || u == 0x2029 || u == 0x202F || u == 0x205F || u == 0x3000
  }

  /** Bytes of a character in UTF-8. */
  function Width(c: char): nat
  {
    var u := c as int;
    if u < 0x80 then 1 else if u < 0x800 then 2 else if u < 0x1_0000 then 3 else 4
  }

  /** Go's len of a string. */
  function Len(s: string): nat
  {
    if s == [] then 0 else Len(s[..|s| - 1]) + Width(s[|s| - 1])
  }

  lemma {:induction false} LenSum(a: string, b: string)
    ensures Len(a + b) == Len(a) + Len(b)
  {
    if b == [] {
      assert a + b == a;
    } else {
      LenSum(a, b[..|b| - 1]);
      assert (a + b)[..|a + b| - 1] == a + b[..|b| - 1];
    }
  }

  function TrimLeft(s: string): string
  {
    if s != [] && IsSpace(s[0]) then TrimLeft(s[1..]) else s
  }

  function TrimRight(s: string): string
  {
    if s != [] && IsSpace(s[|s| - 1]) then TrimRight(s[..|s| - 1]) else s
  }

  function TrimSpace(s: string): string
  {
    TrimRight(TrimLeft(s))
  }

  lemma {:induction false} TrimLeftEnd(s: string)
    ensures TrimLeft(s) != [] ==> !IsSpace(TrimLeft(s)[0])
  {
    if s != [] && IsSpace(s[0]) {
      TrimLeftEnd(s[1..]);
    }
  }

  lemma {:induction false} TrimRightEnds(s: string)
    ensures TrimRight(s) != [] ==> !IsSpace(TrimRight(s)[|TrimRight(s)| - 1]) && TrimRight(s)[0] == s[0]
    ensures TrimRight(s) <= s
  {
    if s != [] && IsSpace(s[|s| - 1]) {
      TrimRightEnds(s[..|s| - 1]);
    }
  }

  /** Trimming leaves no space at either end, and nothing to trim. */
  lemma Trimmed(s: string)
    ensures var t := TrimSpace(s);
            t != [] ==> !IsSpace(t[0]) && !IsSpace(t[|t| - 1])
    ensures TrimSpace(TrimSpace(s)) == TrimSpace(s)
  {
    TrimLeftEnd(s);
    TrimRightEnds(TrimLeft(s));
  }

  /** Position of the first c, |s| if there is none. */
  function First(s: string, c: char): (i: nat)
    ensures i <= |s| && c !in s[..i] && (i < |s| ==> s[i] == c) && (i == |s| <==> c !in s)
  {
    if s == [] || s[0] == c then 0 else 1 + First(s[1..], c)
  }

  function Last(s: string, c: char): (i: Option<nat>)
    ensures i.None? <==> c !in s
    ensures i.Some? ==> i.value < |s| && s[i.value] == c && c !in s[i.value + 1..]
  {
    if s == [] then None
    else if s[|s| - 1] == c then Some(|s| - 1)
    else
      var before := Last(s[..|s| - 1], c);
      assert s == s[..|s| - 1] + [s[|s| - 1]];
      before
  }

  lemma NotBefore(s: string, c: char, k: nat, i: nat)
    requires k <= |s| && c !in s[..k] && i < |s| && s[i] == c
    ensures i >= k
  {
    assert forall j | 0 <= j < k :: s[j] == s[..k][j];
  }

  lemma NotAfter(s: string, c: char, k: nat, i: nat)
    requires k <= |s| && c !in s[k..] && i < |s| && s[i] == c
    ensures i < k
  {
    assert forall j | k <= j < |s| :: s[j] == s[k..][j - k];
  }

  lemma FirstIs(a: string, c: char, b: string)
    requires c !in a
    ensures First(a + [c] + b, c) == |a|
  {
    var s := a + [c] + b;
    assert s[|a|] == c && c in s && s[..|a|] == a;
    NotBefore(s, c, First(s, c), |a|);
    NotBefore(s, c, |a|, First(s, c));
  }

  lemma LastIs(a: string, c: char, b: string)
    requires c !in b
    ensures Last(a + [c] + b, c) == Some(|a|)
  {
    var s := a + [c] + b;
    assert s[|a|] == c && c in s && s[|a| + 1..] == b;
    var i := Last(s, c).value;
    NotAfter(s, c, i + 1, |a|);
    NotAfter(s, c, |a| + 1, i);
  }

  // ----- Numbers --------------------------------------------------------------------------

  predicate IsDigit(c: char)
  {
    '0' <= c <= '9'
  }

  function DigitChar(d: nat): (c: char)
    requires d < 10
    ensures IsDigit(c)
  {
    '0' + d as char
  }

  /** strconv.Itoa. */
  function Itoa(n: nat): (s: string)
    ensures s != [] && forall c | c in s :: IsDigit(c)
  {
    if n < 10 then [DigitChar(n)] else Itoa(n / 10) + [DigitChar(n % 10)]
  }

  function Value(s: string): nat
    requires forall c | c in s :: IsDigit(c)
  {
    if s == [] then 0
    else
      assert IsDigit(s[|s| - 1]);
      10 * Value(s[..|s| - 1]) + (s[|s| - 1] as int - '0' as int)
  }

  /** strconv.Atoi, but for the overflow no port gets past. */
  function Atoi(s: string): Option<int>
  {
    var signed := s != [] && (s[0] == '+' || s[0] == '-');
    var digits := if signed then s[1..] else s;
    if digits == [] || exists c :: c in digits && !IsDigit(c) then None
    else
      var n: int := Value(digits);
      Some(if signed && s[0] == '-' then -n else n)
  }

  lemma {:induction false} ValueOfItoa(n: nat)
    ensures Value(Itoa(n)) == n
  {
    if n >= 10 {
      ValueOfItoa(n / 10);
      assert Itoa(n)[..|Itoa(n)| - 1] == Itoa(n / 10);
    }
  }

  lemma AtoiItoa(n: nat)
    ensures Atoi(Itoa(n)) == Some(n)
  {
    ValueOfItoa(n);
    assert IsDigit(Itoa(n)[0]);
  }

  lemma PortLength(n: nat)
    requires n <= 65535
    ensures |Itoa(n)| <= 5
  {
    assert n / 10 <= 6553 && n / 10 / 10 <= 655 && n / 10 / 10 / 10 <= 65 && n / 10 / 10 / 10 / 10 <= 6;
    assert n >= 10 ==> |Itoa(n)| == |Itoa(n / 10)| + 1;
    assert n >= 100 ==> |Itoa(n / 10)| == |Itoa(n / 10 / 10)| + 1;
    assert n >= 1000 ==> |Itoa(n / 10 / 10)| == |Itoa(n / 10 / 10 / 10)| + 1;
    assert n >= 10000 ==> |Itoa(n / 10 / 10 / 10)| == |Itoa(n / 10 / 10 / 10 / 10)| + 1;
  }

  // ----- Host and port --------------------------------------------------------------------

  /** net.JoinHostPort. */
  function JoinHostPort(host: string, port: string): string
  {
    if ':' in host then "[" + host + "]:" + port else host + ":" + port
  }

  /** net.SplitHostPort. */
  function SplitHostPort(s: string): Option<(string, string)>
  {
    var last := Last(s, ':');
    if last.None? then None
    else
      var i := last.value;
      if s[0] == '[' then
        var end := First(s, ']');
        if end == |s| || end + 1 != i || '[' in s[1..] || ']' in s[end + 1..] then None
        else Some((s[1..end], s[i + 1..]))
      else if ':' in s[..i] || '[' in s || ']' in s then None
      else Some((s[..i], s[i + 1..]))
  }

  lemma BracketedMarks(host: string, port: string)
    requires '[' !in host && ']' !in host && ':' !in port && '[' !in port && ']' !in port
    ensures var s := "[" + host + "]:" + port;
            && Last(s, ':') == Some(|host| + 2) && First(s, ']') == |host| + 1
            && '[' !in s[1..] && ']' !in s[|host| + 2..]
  {
    hide First, Last;
    var s := "[" + host + "]:" + port;
    assert Last(s, ':') == Some(|host| + 2) by {
      assert s == ("[" + host + "]") + [':'] + port;
      LastIs("[" + host + "]", ':', port);
    }
    assert First(s, ']') == |host| + 1 by {
      assert s == ("[" + host) + [']'] + (":" + port);
      FirstIs("[" + host, ']', ":" + port);
    }
    assert s[1..] == host + "]:" + port;
    assert s[|host| + 2..] == ":" + port;
  }

  lemma BracketedSplits(host: string, port: string)
    requires '[' !in host && ']' !in host && ':' !in port && '[' !in port && ']' !in port
    ensures SplitHostPort("[" + host + "]:" + port) == Some((host, port))
  {
    hide First, Last;
    var s, n := "[" + host + "]:" + port, |host|;
    BracketedMarks(host, port);
    assert s[1..n + 1] == host && s[n + 3..] == port;
  }

  lemma PlainSplits(host: string, port: string)
    requires host != [] && ':' !in host && '[' !in host && ']' !in host && ':' !in port && '[' !in port && ']' !in port
    ensures SplitHostPort(host + ":" + port) == Some((host, port))
  {
    var s := host + ":" + port;
    assert s == host + [':'] + port;
    LastIs(host, ':', port);
    assert s[0] == host[0] && s[..|host|] == host && s[|host| + 1..] == port;
  }

  lemma JoinSplits(host: string, port: string)
    requires host != [] && '[' !in host && ']' !in host
    requires ':' !in port && '[' !in port && ']' !in port
    ensures SplitHostPort(JoinHostPort(host, port)) == Some((host, port))
  {
    if ':' in host {
      BracketedSplits(host, port);
    } else {
      PlainSplits(host, port);
    }
  }

  // ----- Splitting ------------------------------------------------------------------------

  /** strings.Split on one character. */
  function Split(s: string, c: char): (parts: seq<string>)
    ensures parts != []
    decreases |s|
  {
    var i := First(s, c);
    if i == |s| then [s] else [s[..i]] + Split(s[i + 1..], c)
  }

  /** strings.SplitN with a limit. */
  function SplitN(s: string, c: char, n: nat): (parts: seq<string>)
    requires n > 0
    ensures 0 < |parts| <= n
  {
    var i := First(s, c);
    if i == |s| || n == 1 then [s] else [s[..i]] + SplitN(s[i + 1..], c, n - 1)
  }

  /** strings.Join. */
  function Join(parts: seq<string>, c: char): string
  {
    if parts == [] then "" else if |parts| == 1 then parts[0] else parts[0] + [c] + Join(parts[1..], c)
  }

  lemma {:induction false} JoinThenSplit(parts: seq<string>, c: char)
    requires parts != [] && forall p | p in parts :: c !in p
    ensures Split(Join(parts, c), c) == parts
  {
    var s := Join(parts, c);
    if |parts| == 1 {
    } else {
      var rest := Join(parts[1..], c);
      FirstIs(parts[0], c, rest);
      assert s[..|parts[0]|] == parts[0] && s[|parts[0]| + 1..] == rest;
      JoinThenSplit(parts[1..], c);
    }
  }
}
