/** The text layer of the shot-list artifact: decimal formatting as
    std::to_string writes it, the std::stoi parse, splitting on a delimiter
    (splitStr), and the two regular expressions the judge matches lines
    against. */
module Text {
  import opened SimData

  /** The range of a 32-bit C++ `int`; std::stoi throws outside it. */
  const IntMin: int := -0x8000_0000
  const IntMax: int := 0x7FFF_FFFF

  predicate IsDigit(c: char) {
    '0' <= c <= '9'
  }

  /** The `[[:space:]]` class of the C locale. */
  predicate IsSpace(c: char) {
    c == ' ' || c == '\t' || c == '\n' || c == '\U{0B}' || c == '\U{0C}' || c == '\r'
  }

  predicate AllDigits(s: string) {
    forall i :: 0 <= i < |s| ==> IsDigit(s[i])
  }

  /** A full match of `[[:digit:]]+`. */
  predicate IsDigitString(s: string) {
    |s| > 0 && AllDigits(s)
  }

  function DigitValue(c: char): nat
    requires IsDigit(c)
  {
    (c as int) - ('0' as int)
  }

  function DigitChar(d: nat): (c: char)
    requires d < 10
    ensures IsDigit(c) && DigitValue(c) == d
  {
    (('0' as int) + d) as char
  }

  /** The value of a decimal digit string, most significant digit first. */
  function DigitsValue(s: string): nat
    requires AllDigits(s)
  {
    if |s| == 0 then 0 else DigitsValue(s[..|s| - 1]) * 10 + DigitValue(s[|s| - 1])
  }

  /** Decimal representation of a natural number, without leading zeros. */
  function NatToString(n: nat): (s: string)
    ensures IsDigitString(s)
    ensures DigitsValue(s) == n
  {
    if n < 10 then [DigitChar(n)]
    else
      var s := NatToString(n / 10) + [DigitChar(n % 10)];
      assert s[..|s| - 1] == NatToString(n / 10);
      s
  }

  /** std::to_string of an integer. */
  function IntToString(v: int): (s: string)
    ensures |s| > 0
    ensures ' ' !in s
    ensures v >= 0 ==> IsDigitString(s) && DigitsValue(s) == v
    ensures v < 0 ==> s[0] == '-' && IsDigitString(s[1..]) && DigitsValue(s[1..]) == -v
  {
    if v < 0 then "-" + NatToString(-v) else NatToString(v)
  }

  /** The end of the maximal run of digits starting at i. */
  function DigitEnd(s: string, i: nat): (e: nat)
    requires i <= |s|
    ensures i <= e <= |s|
    ensures forall k :: i <= k < e ==> IsDigit(s[k])
    ensures e < |s| ==> !IsDigit(s[e])
    decreases |s| - i
  {
    if i < |s| && IsDigit(s[i]) then DigitEnd(s, i + 1) else i
  }

  /** The first index at or after i that is not white space. */
  function SkipSpaces(s: string, i: nat): (e: nat)
    requires i <= |s|
    ensures i <= e <= |s|
    ensures forall k :: i <= k < e ==> IsSpace(s[k])
    ensures e < |s| ==> !IsSpace(s[e])
    decreases |s| - i
  {
    if i < |s| && IsSpace(s[i]) then SkipSpaces(s, i + 1) else i
  }

  /** std::stoi: skips leading white space, reads an optional sign and the
      longest digit prefix, ignores the rest. None stands for the exception it
      throws: no digits at all, or a value outside the `int` range. */
  function Stoi(s: string): (r: Option<int>)
    ensures r.Some? ==> IntMin <= r.value <= IntMax
    ensures IsDigitString(s) ==> (r.Some? <==> DigitsValue(s) <= IntMax)
    ensures IsDigitString(s) && r.Some? ==> r.value == DigitsValue(s)
  {
    var i := SkipSpaces(s, 0);
    var neg := i < |s| && s[i] == '-';
    var j := if i < |s| && (s[i] == '-' || s[i] == '+') then i + 1 else i;
    var e := DigitEnd(s, j);
    if e == j then None
    else
      DigitRun(s, j, e);
      var m: int := DigitsValue(s[j..e]);
      var v: int := if neg then -m else m;
      assert IsDigitString(s) ==> i == 0 && j == 0 && e == |s| && s[j..e] == s;
      if IntMin <= v <= IntMax then Some(v) else None
  }

  /** A run of digits, cut out of a longer string, is a digit string. */
  lemma DigitRun(s: string, j: nat, e: nat)
    requires j <= e <= |s|
    requires forall k :: j <= k < e ==> IsDigit(s[k])
    ensures AllDigits(s[j..e])
  {
    forall k | 0 <= k < e - j
      ensures IsDigit(s[j..e][k])
    {
      assert s[j..e][k] == s[j + k];
    }
  }

  /** Every integer in the `int` range survives std::to_string then std::stoi. */
  lemma StoiIntToString(v: int)
    requires IntMin <= v <= IntMax
    ensures Stoi(IntToString(v)) == Some(v)
  {
    var s := IntToString(v);
    assert SkipSpaces(s, 0) == 0;
    if v < 0 {
      assert DigitEnd(s, 1) == |s| by {
        DigitEndOfDigits(s, 1);
      }
      assert s[1..|s|] == s[1..];
    } else {
      DigitEndOfDigits(s, 0);
      assert s[0..|s|] == s;
    }
  }

  lemma {:induction false} DigitEndOfDigits(s: string, i: nat)
    requires i <= |s|
    requires forall k :: i <= k < |s| ==> IsDigit(s[k])
    ensures DigitEnd(s, i) == |s|
    decreases |s| - i
  {
    if i < |s| {
      DigitEndOfDigits(s, i + 1);
    }
  }

  /** The first index of d at or after i, or |s| when there is none. */
  function IndexOf(s: string, d: char, i: nat): (e: nat)
    requires i <= |s|
    ensures i <= e <= |s|
    ensures forall k :: i <= k < e ==> s[k] != d
    ensures e < |s| ==> s[e] == d
    decreases |s| - i
  {
    if i < |s| && s[i] != d then IndexOf(s, d, i + 1) else i
  }

  /** splitStr: the pieces of s between occurrences of d. The empty string
      yields one empty piece. */
  function Split(s: string, d: char): (r: seq<string>)
    ensures |r| >= 1
    ensures forall i :: 0 <= i < |r| ==> d !in r[i]
    ensures Join(r, d) == s
    decreases |s|
  {
    var e := IndexOf(s, d, 0);
    if e == |s| then [s]
    else
      var rest := Split(s[e + 1..], d);
      assert Join([s[..e]] + rest, d) == s[..e] + [d] + Join(rest, d);
      assert s == s[..e] + [d] + s[e + 1..];
      [s[..e]] + rest
  }

  /** The inverse of Split: the pieces glued back with d. */
  function Join(pieces: seq<string>, d: char): string {
    if |pieces| == 0 then ""
    else if |pieces| == 1 then pieces[0]
    else pieces[0] + [d] + Join(pieces[1..], d)
  }

  lemma SplitNoDelimiter(s: string, d: char)
    requires d !in s
    ensures Split(s, d) == [s]
  {
    assert IndexOf(s, d, 0) == |s|;
  }

  /** Splitting a piece free of d followed by d peels that piece off. */
  lemma SplitCons(a: string, d: char, rest: string)
    requires d !in a
    ensures Split(a + [d] + rest, d) == [a] + Split(rest, d)
  {
    var s := a + [d] + rest;
    assert IndexOf(s, d, 0) == |a| by {
      IndexOfPast(s, d, 0, |a|);
    }
    assert s[|a| + 1..] == rest;
    assert s[..|a|] == a;
  }

  lemma {:induction false} IndexOfPast(s: string, d: char, i: nat, e: nat)
    requires i <= e < |s| && s[e] == d
    requires forall k :: i <= k < e ==> s[k] != d
    ensures IndexOf(s, d, i) == e
    decreases e - i
  {
    if i < e {
      IndexOfPast(s, d, i + 1, e);
    }
  }

  /** `-?[[:digit:]]+` (signed) or `[[:digit:]]+` starting at i: the end index
      of the maximal match, or None. Since digits, '-' and white space are
      disjoint, the maximal match is the only one the line regex can use. */
  function FieldEnd(s: string, i: nat, signed: bool): (r: Option<nat>)
    requires i <= |s|
    ensures r.Some? ==> i < r.value <= |s|
  {
    var j := if signed && i < |s| && s[i] == '-' then i + 1 else i;
    var e := DigitEnd(s, j);
    if e == j then None else Some(e)
  }

  /** The tail of the shot-line regex from index i, with `left` fields still
      to match: the first two of the four fields may carry a sign, and every
      field but the last is followed by one white-space character. */
  predicate FieldsMatch(s: string, i: nat, left: nat)
    requires i <= |s|
    decreases left
  {
    var e := FieldEnd(s, i, left > 2);
    if left <= 1 then left == 1 && e == Some(|s|)
    else e.Some? && e.value < |s| && IsSpace(s[e.value]) && FieldsMatch(s, e.value + 1, left - 1)
  }

  /** A full match of the shot-line regex
      `(-?[[:digit:]]+[[:space:]]){2}([[:digit:]]+[[:space:]][[:digit:]]+)`. */
  predicate LineMatches(s: string) {
    FieldsMatch(s, 0, 4)
  }

  /** One shot record as the resolver writes it: `la lo turn sat`. */
  function FormatShot(s: Shot): string {
    Join([IntToString(s.la), IntToString(s.lo), IntToString(s.turn), IntToString(s.sat)], ' ')
  }

  /** std::stoi on each piece in turn; None as soon as one of them throws. */
  function StoiAll(pieces: seq<string>): (r: Option<seq<int>>)
    ensures r.Some? ==> |r.value| == |pieces|
  {
    if |pieces| == 0 then Some([])
    else match (Stoi(pieces[0]), StoiAll(pieces[1..]))
      case (Some(v), Some(vs)) => Some([v] + vs)
      case _ => None
  }

  /** StoiAll succeeds exactly when std::stoi accepts every piece, and then
      holds the values in order. */
  lemma {:induction false} StoiAllMeaning(pieces: seq<string>)
    ensures StoiAll(pieces).Some? <==> forall i :: 0 <= i < |pieces| ==> Stoi(pieces[i]).Some?
    ensures StoiAll(pieces).Some? ==> forall i :: 0 <= i < |pieces| ==> Stoi(pieces[i]) == Some(StoiAll(pieces).value[i])
  {
    if |pieces| > 0 {
      StoiAllMeaning(pieces[1..]);
      assert forall i :: 1 <= i < |pieces| ==> pieces[i] == pieces[1..][i - 1];
    }
  }

  /** Reading fewer pieces succeeds whenever reading more does, with the
      same leading values. */
  lemma {:induction false} StoiAllPrefix(pieces: seq<string>, k: nat)
    requires k <= |pieces| && StoiAll(pieces).Some?
    ensures StoiAll(pieces[..k]) == Some(StoiAll(pieces).value[..k])
  {
    if k > 0 {
      assert pieces[..k][1..] == pieces[1..][..k - 1];
      StoiAllPrefix(pieces[1..], k - 1);
      var vs := StoiAll(pieces[1..]).value;
      assert StoiAll(pieces).value == [StoiAll(pieces).value[0]] + vs;
      assert StoiAll(pieces).value[..k] == [StoiAll(pieces).value[0]] + vs[..k - 1];
    } else {
      assert pieces[..0] == [];
    }
  }

  /** The four fields of a shot line, split on ' ' and read with std::stoi.
      None when a field does not parse, or when the line has fewer than four
      pieces (the source then reads past the end of its vector). */
  function ParseShotLine(line: string): Option<Shot> {
    var f := Split(line, ' ');
    if |f| < 4 then None
    else match StoiAll(f[..4])
      case None => None
      case Some(v) => Some(Shot(v[0], v[1], v[2], v[3]))
  }

  /** The first two fields only, as getImagesTaken reads them. */
  function ParsePositionLine(line: string): Option<Position> {
    var f := Split(line, ' ');
    if |f| < 2 then None
    else match StoiAll(f[..2])
      case None => None
      case Some(v) => Some(Position(v[0], v[1]))
  }

  /** A line that gives a shot gives that shot's position. */
  lemma ParseShotGivesPosition(line: string)
    requires ParseShotLine(line).Some?
    ensures ParsePositionLine(line) == Some(ShotPos(ParseShotLine(line).value))
  {
    var f := Split(line, ' ');
    StoiAllPrefix(f[..4], 2);
    assert f[..4][..2] == f[..2];
  }

  lemma ParseEmptyLine()
    ensures ParseShotLine("") == None
    ensures ParsePositionLine("") == None
  {
    SplitNoDelimiter("", ' ');
  }

  predicate InIntRange(s: Shot) {
    IntMin <= s.la <= IntMax && IntMin <= s.lo <= IntMax && IntMin <= s.turn <= IntMax && IntMin <= s.sat <= IntMax
  }

  /** Split undoes Join when no piece holds the delimiter. */
  lemma {:induction false} SplitJoin(pieces: seq<string>, d: char)
    requires |pieces| >= 1
    requires forall i :: 0 <= i < |pieces| ==> d !in pieces[i]
    ensures Split(Join(pieces, d), d) == pieces
  {
    if |pieces| == 1 {
      SplitNoDelimiter(pieces[0], d);
    } else {
      SplitCons(pieces[0], d, Join(pieces[1..], d));
      SplitJoin(pieces[1..], d);
    }
  }

  /** A formatted shot reads back as itself. */
  lemma ParseFormatShot(s: Shot)
    requires InIntRange(s)
    ensures ParseShotLine(FormatShot(s)) == Some(s)
  {
    var f := [IntToString(s.la), IntToString(s.lo), IntToString(s.turn), IntToString(s.sat)];
    SplitJoin(f, ' ');
    assert f[..4] == f;
    StoiAllFormat(s);
  }

  /** The four printed fields of a shot in the int range read back as its
      four integers. */
  lemma StoiAllFormat(s: Shot)
    requires InIntRange(s)
    ensures StoiAll([IntToString(s.la), IntToString(s.lo), IntToString(s.turn), IntToString(s.sat)])
            == Some([s.la, s.lo, s.turn, s.sat])
  {
    var ps := [IntToString(s.la), IntToString(s.lo), IntToString(s.turn), IntToString(s.sat)];
    var vs := [s.la, s.lo, s.turn, s.sat];
    assert ps[3..][1..] == [] && vs[3..][1..] == [];
    StoiAllStep(ps[3..], vs[3..]);
    assert ps[2..][1..] == ps[3..] && vs[2..][1..] == vs[3..];
    StoiAllStep(ps[2..], vs[2..]);
    assert ps[1..][1..] == ps[2..] && vs[1..][1..] == vs[2..];
    StoiAllStep(ps[1..], vs[1..]);
    StoiAllStep(ps, vs);
  }

  /** One more printed integer in front of pieces that read back. */
  lemma StoiAllStep(ps: seq<string>, vs: seq<int>)
    requires |ps| == |vs| > 0
    requires IntMin <= vs[0] <= IntMax && ps[0] == IntToString(vs[0])
    requires StoiAll(ps[1..]) == Some(vs[1..])
    ensures StoiAll(ps) == Some(vs)
  {
    StoiIntToString(vs[0]);
    assert vs == [vs[0]] + vs[1..];
  }

  /** A token the signed field pattern `-?[[:digit:]]+` matches in full. */
  predicate SignedToken(t: string) {
    |t| > 0 && (if t[0] == '-' then IsDigitString(t[1..]) else IsDigitString(t))
  }

  lemma IntToStringToken(v: int)
    ensures SignedToken(IntToString(v))
    ensures v >= 0 ==> IsDigitString(IntToString(v))
  {
  }

  /** The field of line starting at p is the token t placed there, followed by
      a space or the end of the line. */
  lemma FieldAt(line: string, p: nat, t: string, signed: bool)
    requires if signed then SignedToken(t) else IsDigitString(t)
    requires p + |t| <= |line| && line[p..p + |t|] == t
    requires p + |t| < |line| ==> line[p + |t|] == ' '
    ensures FieldEnd(line, p, signed) == Some(p + |t|)
  {
    var e := p + |t|;
    assert forall k :: p <= k < e ==> line[k] == t[k - p];
    if signed && t[0] == '-' {
      assert forall k :: p + 1 <= k < e ==> line[k] == t[1..][k - p - 1];
      DigitEndAt(line, p + 1, e);
    } else {
      DigitEndAt(line, p, e);
    }
  }

  lemma {:induction false} DigitEndAt(s: string, i: nat, e: nat)
    requires i <= e <= |s|
    requires forall k :: i <= k < e ==> IsDigit(s[k])
    requires e < |s| ==> !IsDigit(s[e])
    ensures DigitEnd(s, i) == e
    decreases e - i
  {
    if i < e {
      DigitEndAt(s, i + 1, e);
    }
  }

  lemma JoinFour(a: string, b: string, c: string, d: string)
    ensures Join([a, b, c, d], ' ') == a + [' '] + (b + [' '] + (c + [' '] + d))
  {
    assert Join([d], ' ') == d;
    assert [c, d][1..] == [d];
    assert Join([c, d], ' ') == c + [' '] + d;
    assert [b, c, d][1..] == [c, d];
    assert Join([b, c, d], ' ') == b + [' '] + (c + [' '] + d);
    assert [a, b, c, d][1..] == [b, c, d];
  }

  /** The token t sits in `pre + t + post` right after pre, followed by a space
      or nothing: the field there ends where t ends. */
  lemma FieldAfter(pre: string, t: string, post: string, signed: bool)
    requires if signed then SignedToken(t) else IsDigitString(t)
    requires |post| == 0 || post[0] == ' '
    ensures FieldEnd(pre + t + post, |pre|, signed) == Some(|pre| + |t|)
  {
    var line := pre + t + post;
    assert line[|pre|..|pre| + |t|] == t;
    FieldAt(line, |pre|, t, signed);
  }

  /** The regex match, given where the four fields start. */
  lemma MatchFromFields(line: string, p1: nat, p2: nat, p3: nat)
    requires 0 < p1 <= p2 <= p3 <= |line|
    requires FieldEnd(line, 0, true) == Some(p1 - 1) && line[p1 - 1] == ' '
    requires p1 < p2 && FieldEnd(line, p1, true) == Some(p2 - 1) && line[p2 - 1] == ' '
    requires p2 < p3 && FieldEnd(line, p2, false) == Some(p3 - 1) && line[p3 - 1] == ' '
    requires FieldEnd(line, p3, false) == Some(|line|)
    ensures LineMatches(line)
  {
    assert FieldsMatch(line, p3, 1);
    assert FieldsMatch(line, p2, 2);
    assert FieldsMatch(line, p1, 3);
  }

  /** Four tokens joined by single spaces. */
  function Spaced(a: string, b: string, c: string, d: string): string {
    a + [' '] + (b + [' '] + (c + [' '] + d))
  }

  lemma FirstField(a: string, b: string, c: string, d: string)
    requires SignedToken(a)
    ensures FieldEnd(Spaced(a, b, c, d), 0, true) == Some(|a|) && Spaced(a, b, c, d)[|a|] == ' '
  {
    var s1 := [' '] + (b + [' '] + (c + [' '] + d));
    assert Spaced(a, b, c, d) == [] + a + s1;
    FieldAfter([], a, s1, true);
  }

  lemma SecondField(a: string, b: string, c: string, d: string)
    requires SignedToken(b)
    ensures var p := |a| + 1;
            FieldEnd(Spaced(a, b, c, d), p, true) == Some(p + |b|) && Spaced(a, b, c, d)[p + |b|] == ' '
  {
    var s2 := [' '] + (c + [' '] + d);
    assert Spaced(a, b, c, d) == (a + [' ']) + b + s2;
    FieldAfter(a + [' '], b, s2, true);
  }

  lemma ThirdField(a: string, b: string, c: string, d: string)
    requires IsDigitString(c)
    ensures var p := |a| + |b| + 2;
            FieldEnd(Spaced(a, b, c, d), p, false) == Some(p + |c|) && Spaced(a, b, c, d)[p + |c|] == ' '
  {
    var s3 := [' '] + d;
    assert Spaced(a, b, c, d) == (a + [' '] + b + [' ']) + c + s3;
    FieldAfter(a + [' '] + b + [' '], c, s3, false);
  }

  lemma FourthField(a: string, b: string, c: string, d: string)
    requires IsDigitString(d)
    ensures var p := |a| + |b| + |c| + 3;
            FieldEnd(Spaced(a, b, c, d), p, false) == Some(|Spaced(a, b, c, d)|)
  {
    assert Spaced(a, b, c, d) == (a + [' '] + b + [' '] + c + [' ']) + d + [];
    FieldAfter(a + [' '] + b + [' '] + c + [' '], d, [], false);
  }

  /** Two signed tokens and two digit strings joined by single spaces form a
      line the shot-line regex accepts. */
  lemma TokensMatch(a: string, b: string, c: string, d: string)
    requires SignedToken(a) && SignedToken(b) && IsDigitString(c) && IsDigitString(d)
    ensures LineMatches(Join([a, b, c, d], ' '))
  {
    JoinFour(a, b, c, d);
    FirstField(a, b, c, d);
    SecondField(a, b, c, d);
    ThirdField(a, b, c, d);
    FourthField(a, b, c, d);
    MatchFromFields(Spaced(a, b, c, d), |a| + 1, |a| + |b| + 2, |a| + |b| + |c| + 3);
  }

  /** Every shot with a non-negative turn and satellite is written in a form
      the shot-line regex accepts. */
  lemma FormatShotMatches(s: Shot)
    requires s.turn >= 0 && s.sat >= 0
    ensures LineMatches(FormatShot(s))
  {
    IntToStringToken(s.la);
    IntToStringToken(s.lo);
    IntToStringToken(s.turn);
    IntToStringToken(s.sat);
    TokensMatch(IntToString(s.la), IntToString(s.lo), IntToString(s.turn), IntToString(s.sat));
  }
}
