/** Shared vocabulary of the services: optional values, outcomes of calls
    into code outside the model, the exceptions the services raise, and
    the string helpers that keys, paths, URLs and labels are built with. */
module Common {

  /** `undefined`/`null` versus a value. */
  datatype Option<T> = None | Some(value: T) {
    function GetOr(default: T): T {
      if Some? then value else default
    }
  }

  /** Outcome of a call into code outside the model (S3, ffmpeg, an HTTP
      endpoint, the notifier): it returns, or it throws with a message. */
  datatype Fault = NoFault | Fault(message: string)

  /** The exceptions the services throw, by kind. `PlainError` is a plain
      JavaScript `Error`; `InvalidQuery` is Prisma's validation error for
      the query argument it names. */
  datatype Error =
    | NotFound(message: string)
    | Forbidden(message: string)
    | BadRequest(message: string)
    | Unauthorized(message: string)
    | Conflict(message: string)
    | PlainError(message: string)
    | InvalidQuery(argument: string)

  datatype Result<T> = Ok(value: T) | Err(error: Error)

  /** JavaScript's `a || b` on an optional string: `undefined` and `""`
      are both falsy. */
  function OrDefault(setting: Option<string>, default: string): (r: string)
    ensures setting.Some? && setting.value != "" ==> r == setting.value
    ensures setting.None? || setting.value == "" ==> r == default
  {
    if setting.Some? && setting.value != "" then setting.value else default
  }

  // ---------------------------------------------------------------------
  // Decimal numbers
  // ---------------------------------------------------------------------

  predicate IsDigit(c: char) {
    '0' <= c <= '9'
  }

  predicate AllDigits(s: string) {
    forall i :: 0 <= i < |s| ==> IsDigit(s[i])
  }

  function DigitChar(d: nat): (c: char)
    requires d < 10
    ensures IsDigit(c)
  {
    ('0' as int + d) as char
  }

  /** The value of a decimal digit (0 for any other character). */
  function DigitValue(c: char): (d: nat)
    ensures d < 10 && (IsDigit(c) ==> DigitChar(d) == c)
  {
    if IsDigit(c) then c as int - '0' as int else 0
  }

  /** How a template literal prints a non-negative integer: its decimal
      digits, without leading zeros. */
  function NatToString(n: nat): (s: string)
    ensures |s| > 0 && AllDigits(s)
    ensures s[0] == '0' ==> n == 0
    decreases n
  {
    if n < 10 then [DigitChar(n)] else NatToString(n / 10) + [DigitChar(n % 10)]
  }

  /** The value of a string of decimal digits; leading zeros are allowed,
      as in `parseInt("007", 10)`. */
  function ParseNat(s: string): nat
  {
    if s == [] then 0 else ParseNat(s[..|s| - 1]) * 10 + DigitValue(s[|s| - 1])
  }

  /** Reading back a printed number gives the number. */
  lemma {:induction false} ParseNatOfNatToString(n: nat)
    ensures ParseNat(NatToString(n)) == n
    decreases n
  {
    if n >= 10 {
      var s := NatToString(n);
      assert s[..|s| - 1] == NatToString(n / 10);
      ParseNatOfNatToString(n / 10);
    }
  }

  /** A leading zero does not change the value. */
  lemma {:induction false} ParseNatLeadingZero(s: string)
    requires AllDigits(s)
    ensures AllDigits("0" + s) && ParseNat("0" + s) == ParseNat(s)
    decreases |s|
  {
    if s != [] {
      assert ("0" + s)[..|"0" + s| - 1] == "0" + s[..|s| - 1];
      ParseNatLeadingZero(s[..|s| - 1]);
    }
  }

  /** Numbers below 100 print with at most two digits. */
  lemma NatToStringBelow100(n: nat)
    requires n < 100
    ensures |NatToString(n)| == if n < 10 then 1 else 2
  {
    if n >= 10 {
      assert NatToString(n) == NatToString(n / 10) + [DigitChar(n % 10)];
    }
  }

  // ---------------------------------------------------------------------
  // Integer division
  // ---------------------------------------------------------------------

  lemma MulMono(d: nat, x: nat, y: nat)
    requires x <= y
    ensures d * x <= d * y
  {
    assert d * y == d * x + d * (y - x);
  }

  lemma MulCancel(d: nat, x: nat, y: nat)
    requires d * x < d * y
    ensures x < y
  {
    if x >= y {
      MulMono(d, y, x);
    }
  }

  /** The quotient rounds down: `a` lies in `[d*q, d*(q+1))`. */
  lemma DivBounds(a: nat, d: nat)
    requires 0 < d
    ensures d * (a / d) <= a < d * (a / d + 1)
  {
    assert a == d * (a / d) + a % d;
    assert d * (a / d + 1) == d * (a / d) + d;
  }

  lemma DivMonotone(a: nat, b: nat, d: nat)
    requires a <= b && 0 < d
    ensures a / d <= b / d
  {
    var p, q := a / d, b / d;
    DivBounds(a, d);
    DivBounds(b, d);
    assert d * p < d * (q + 1);
    MulCancel(d, p, q + 1);
  }

  lemma DivExact(q: nat, r: nat, d: nat)
    requires r < d
    ensures (d * q + r) / d == q
  {
    var a := d * q + r;
    var p := a / d;
    DivBounds(a, d);
    assert d * (q + 1) == d * q + d;
    assert d * p < d * (q + 1);
    MulCancel(d, p, q + 1);
    assert d * q < d * (p + 1);
    MulCancel(d, q, p + 1);
  }

  // ---------------------------------------------------------------------
  // Characters and strings
  // ---------------------------------------------------------------------

  /** `toLowerCase` on the ASCII letters; every other character is kept. */
  function LowerChar(c: char): char {
    if 'A' <= c <= 'Z' then (c as int + 32) as char else c
  }

  function Lower(s: string): (r: string)
    ensures |r| == |s|
    ensures forall i :: 0 <= i < |s| ==> r[i] == LowerChar(s[i])
  {
    seq(|s|, i requires 0 <= i < |s| => LowerChar(s[i]))
  }

  /** Lowercasing leaves every character other than an upper-case letter
      in place, and is idempotent. */
  lemma LowerFacts(s: string)
    ensures Lower(Lower(s)) == Lower(s)
    ensures forall c :: c in Lower(s) && !('a' <= c <= 'z') ==> c in s
  {
    forall c | c in Lower(s) && !('a' <= c <= 'z') ensures c in s {
      var i :| 0 <= i < |s| && Lower(s)[i] == c;
      assert s[i] == c;
    }
  }

  /** The WhiteSpace and LineTerminator code points that
      `String.prototype.trim` removes. */
  predicate IsSpace(c: char) {
    || c == '\t' || c == '\n' || c == '\U{B}' || c == '\U{C}' || c == '\r'
    || c == ' ' || c == '\U{A0}' || c == '\U{1680}'
    || ('\U{2000}' <= c <= '\U{200A}')
    || c == '\U{2028}' || c == '\U{2029}' || c == '\U{202F}'
    || c == '\U{205F}' || c == '\U{3000}' || c == '\U{FEFF}'
  }

  /** The text left after dropping the leading white space. */
  function TrimStart(s: string): (r: string)
    ensures |r| <= |s| && r == s[|s| - |r|..]
    decreases |s|
  {
    if s != [] && IsSpace(s[0]) then TrimStart(s[1..]) else s
  }

  /** What `TrimStart` drops is white space, and what it keeps does not
      start with white space. */
  lemma TrimStartFacts(s: string)
    ensures forall i :: 0 <= i < |s| - |TrimStart(s)| ==> IsSpace(s[i])
    ensures TrimStart(s) == [] || !IsSpace(TrimStart(s)[0])
  {
    TrimStartDrops(s);
    TrimStartKeeps(s);
  }

  lemma {:induction false} TrimStartDrops(s: string)
    ensures forall i :: 0 <= i < |s| - |TrimStart(s)| ==> IsSpace(s[i])
    decreases |s|
  {
    if s != [] && IsSpace(s[0]) {
      var rest := s[1..];
      TrimStartDrops(rest);
      assert |TrimStart(s)| == |TrimStart(rest)|;
      forall i | 1 <= i < |s| - |TrimStart(s)| ensures IsSpace(s[i]) {
        assert s[i] == rest[i - 1];
      }
    }
  }

  lemma {:induction false} TrimStartKeeps(s: string)
    ensures TrimStart(s) == [] || !IsSpace(TrimStart(s)[0])
    decreases |s|
  {
    if s != [] && IsSpace(s[0]) {
      TrimStartKeeps(s[1..]);
    }
  }

  /** The text left after dropping the trailing white space. */
  function TrimEnd(s: string): (r: string)
    ensures |r| <= |s| && r == s[..|r|]
    decreases |s|
  {
    if s != [] && IsSpace(s[|s| - 1]) then TrimEnd(s[..|s| - 1]) else s
  }

  /** What `TrimEnd` drops is white space, and what it keeps does not
      end with white space. */
  lemma {:induction false} TrimEndFacts(s: string)
    ensures forall i :: |TrimEnd(s)| <= i < |s| ==> IsSpace(s[i])
    ensures TrimEnd(s) == [] || !IsSpace(Last(TrimEnd(s)))
    decreases |s|
  {
    if s != [] && IsSpace(s[|s| - 1]) {
      TrimEndFacts(s[..|s| - 1]);
    }
  }

  /** `String.prototype.trim`: the slice of `s` left after dropping the
      leading and trailing white space. */
  function Trim(s: string): (r: string)
    ensures |r| <= |s|
    ensures TrimOffset(s) + |r| <= |s| && r == s[TrimOffset(s)..TrimOffset(s) + |r|]
  {
    var t := TrimStart(s);
    var r := TrimEnd(t);
    assert r == s[|s| - |t|..|s| - |t| + |r|];
    r
  }

  /** Where the trimmed text starts. */
  function TrimOffset(s: string): (k: nat)
    ensures k <= |s|
  {
    |s| - |TrimStart(s)|
  }

  /** The trimmed text neither starts nor ends with white space. */
  lemma TrimEnds(s: string)
    ensures Trim(s) == [] || (!IsSpace(Trim(s)[0]) && !IsSpace(Last(Trim(s))))
  {
    var t := TrimStart(s);
    TrimStartFacts(s);
    TrimEndFacts(t);
    if Trim(s) != [] {
      assert Trim(s)[0] == t[0];
    }
  }

  /** Trimming twice is trimming once. */
  lemma TrimIdempotent(s: string)
    ensures Trim(Trim(s)) == Trim(s)
  {
    var r := Trim(s);
    TrimEnds(s);
    assert TrimStart(r) == r;
    assert TrimEnd(r) == r;
  }

  /** A string holding only white space trims to the empty string, and a
      string with a non-space character does not. */
  lemma TrimEmptyIff(s: string)
    ensures Trim(s) == [] <==> forall i :: 0 <= i < |s| ==> IsSpace(s[i])
  {
    var t := TrimStart(s);
    TrimStartFacts(s);
    TrimEndFacts(t);
    if Trim(s) == [] {
      assert t == [];
    } else {
      assert s[TrimOffset(s)] == Trim(s)[0];
      TrimEnds(s);
    }
  }

  /** `s.includes(sub)`. */
  predicate Contains(s: string, sub: string)
    decreases |s|
  {
    sub <= s || (s != [] && Contains(s[1..], sub))
  }

  /** `s.replace(/from/g, to)` for a single character. */
  function ReplaceChar(s: string, from: char, to: char): (r: string)
    ensures |r| == |s|
    ensures forall i :: 0 <= i < |s| ==> r[i] == if s[i] == from then to else s[i]
  {
    seq(|s|, i requires 0 <= i < |s| => if s[i] == from then to else s[i])
  }

  /** After replacing every `from` by a different `to`, no `from` is
      left, and replacing again changes nothing. */
  lemma ReplaceCharFacts(s: string, from: char, to: char)
    requires from != to
    ensures from !in ReplaceChar(s, from, to)
    ensures ReplaceChar(ReplaceChar(s, from, to), from, to) == ReplaceChar(s, from, to)
  {
    var r := ReplaceChar(s, from, to);
    forall i | 0 <= i < |r| ensures r[i] != from {
    }
  }

  /** `s.padStart(width, fill)` with a one-character fill. */
  function PadStart(s: string, width: nat, fill: char): (r: string)
    ensures |r| == if |s| >= width then |s| else width
    ensures r[|r| - |s|..] == s
    ensures forall i :: 0 <= i < |r| - |s| ==> r[i] == fill
  {
    if |s| >= width then s else seq(width - |s|, _ => fill) + s
  }

  /** `s.split(sep)` for a one-character separator: the separator-free
      pieces between separators, in order; there is always one piece more
      than there are separators, so `""` splits into `[""]`. */
  function Split(s: string, sep: char): (parts: seq<string>)
    ensures |parts| > 0
    ensures forall i :: 0 <= i < |parts| ==> sep !in parts[i]
    decreases |s|
  {
    if s == [] then [""]
    else
      var rest := Split(s[1..], sep);
      if s[0] == sep then [""] + rest
      else [[s[0]] + rest[0]] + rest[1..]
  }

  /** `parts.join(sep)`. */
  function Join(parts: seq<string>, sep: char): string
    requires |parts| > 0
    decreases |parts|
  {
    if |parts| == 1 then parts[0] else parts[0] + [sep] + Join(parts[1..], sep)
  }

  lemma AppendAssoc<T>(a: seq<T>, b: seq<T>, c: seq<T>)
    ensures a + b + c == a + (b + c)
  {
  }

  /** A second update of the same key replaces the first. */
  lemma MapUpdateTwice<K, V>(m: map<K, V>, k: K, a: V, b: V)
    ensures m[k := a][k := b] == m[k := b]
  {
  }

  function Last<T>(s: seq<T>): T
    requires |s| > 0
  {
    s[|s| - 1]
  }

  lemma InitLast<T>(s: seq<T>)
    requires |s| > 0
    ensures s[..|s| - 1] + [Last(s)] == s
  {
  }

  lemma HeadTail<T>(s: seq<T>)
    requires |s| > 0
    ensures [s[0]] + s[1..] == s
  {
  }

  /** Joining after a first piece. */
  lemma JoinCons(first: string, rest: seq<string>, sep: char)
    requires |rest| > 0
    ensures Join([first] + rest, sep) == first + [sep] + Join(rest, sep)
  {
    assert ([first] + rest)[1..] == rest;
  }

  /** Prepending a character to the first piece prepends it to the
      joined text. */
  lemma JoinExtendFirst(c: char, rest: seq<string>, sep: char)
    requires |rest| > 0
    ensures Join([[c] + rest[0]] + rest[1..], sep) == [c] + Join(rest, sep)
  {
    if |rest| > 1 {
      JoinCons([c] + rest[0], rest[1..], sep);
      JoinCons(rest[0], rest[1..], sep);
      assert [rest[0]] + rest[1..] == rest;
    }
  }

  /** Joining the pieces back with the separator gives the string again. */
  lemma {:induction false} JoinSplit(s: string, sep: char)
    ensures Join(Split(s, sep), sep) == s
    decreases |s|
  {
    if s != [] {
      var rest := Split(s[1..], sep);
      JoinSplit(s[1..], sep);
      assert [s[0]] + s[1..] == s;
      if s[0] == sep {
        JoinCons("", rest, sep);
      } else {
        JoinExtendFirst(s[0], rest, sep);
      }
    }
  }

  /** Pieces without the separator, joined with it, split back into the
      same pieces. */
  lemma {:induction false} SplitJoin(parts: seq<string>, sep: char)
    requires |parts| > 0 && forall i :: 0 <= i < |parts| ==> sep !in parts[i]
    ensures Split(Join(parts, sep), sep) == parts
    decreases |parts|
  {
    SplitNoSep(parts[0], sep);
    if |parts| > 1 {
      SplitJoin(parts[1..], sep);
      SplitAtSep(parts[0], Join(parts[1..], sep), sep);
      assert [parts[0]] + parts[1..] == parts;
    }
  }

  /** A string without the separator is one piece. */
  lemma {:induction false} SplitNoSep(s: string, sep: char)
    requires sep !in s
    ensures Split(s, sep) == [s]
    decreases |s|
  {
    if s != [] {
      SplitNoSep(s[1..], sep);
      assert [s[0]] + s[1..] == s;
    }
  }

  /** The text after the last separator, when it has none of its own. */
  lemma LastAfterSep(a: string, b: string, sep: char)
    requires sep !in b
    ensures Last(Split(a + [sep] + b, sep)) == b
  {
    SplitAtSep(a, b, sep);
    SplitNoSep(b, sep);
  }

  /** Splitting at a separator splits the two sides independently. */
  lemma {:induction false} SplitAtSep(a: string, b: string, sep: char)
    ensures Split(a + [sep] + b, sep) == Split(a, sep) + Split(b, sep)
    decreases |a|
  {
    if a == [] {
      assert a + [sep] + b == [sep] + b;
      assert ([sep] + b)[1..] == b;
    } else {
      var s := a + [sep] + b;
      assert s[0] == a[0] && s[1..] == a[1..] + [sep] + b;
      SplitAtSep(a[1..], b, sep);
    }
  }

  /** Lines each followed by a newline: the text a line reader reads
      back as those lines. */
  function JoinLines(lines: seq<string>): string
    decreases |lines|
  {
    if lines == [] then "" else lines[0] + "\n" + JoinLines(lines[1..])
  }

  /** Split at newlines, newline-free lines come back, followed by the
      empty text after the last newline. */
  lemma {:induction false} SplitJoinLines(lines: seq<string>)
    requires forall i :: 0 <= i < |lines| ==> '\n' !in lines[i]
    ensures Split(JoinLines(lines), '\n') == lines + [""]
    decreases |lines|
  {
    if lines != [] {
      var rest := lines[1..];
      SplitJoinLines(rest);
      assert JoinLines(lines) == lines[0] + ['\n'] + JoinLines(rest);
      SplitAtSep(lines[0], JoinLines(rest), '\n');
      SplitNoSep(lines[0], '\n');
      assert lines == [lines[0]] + rest;
    }
  }

  lemma {:induction false} JoinLinesAppend(a: seq<string>, b: seq<string>)
    ensures JoinLines(a + b) == JoinLines(a) + JoinLines(b)
    decreases |a|
  {
    if a == [] {
      assert a + b == b;
    } else {
      assert (a + b)[0] == a[0] && (a + b)[1..] == a[1..] + b;
      JoinLinesAppend(a[1..], b);
      AppendAssoc(a[0] + "\n", JoinLines(a[1..]), JoinLines(b));
    }
  }

  /** The last piece is the (separator-free) text after the last
      separator; it is the whole text exactly when there is one piece. */
  predicate LastPieceFacts(s: string, sep: char) {
    var t := Last(Split(s, sep));
    |t| <= |s| && s[|s| - |t|..] == t &&
    (|t| < |s| ==> s[|s| - |t| - 1] == sep) &&
    (|Split(s, sep)| == 1 ==> t == s) &&
    (|Split(s, sep)| > 1 ==> |t| < |s|)
  }

  lemma LastPieceAtSep(s: string, sep: char)
    requires s != [] && s[0] == sep && LastPieceFacts(s[1..], sep)
    ensures LastPieceFacts(s, sep)
  {
    var rest := Split(s[1..], sep);
    var u := Last(rest);
    assert Split(s, sep) == [""] + rest;
    assert Last(Split(s, sep)) == u;
    assert s[|s| - |u|..] == s[1..][|s[1..]| - |u|..];
  }

  lemma LastPieceOne(s: string, sep: char)
    requires s != [] && s[0] != sep && |Split(s[1..], sep)| == 1 && LastPieceFacts(s[1..], sep)
    ensures LastPieceFacts(s, sep)
  {
    var u := Last(Split(s[1..], sep));
    assert Last(Split(s, sep)) == [s[0]] + u;
    assert s == [s[0]] + s[1..];
  }

  lemma LastPieceMany(s: string, sep: char)
    requires s != [] && s[0] != sep && |Split(s[1..], sep)| > 1 && LastPieceFacts(s[1..], sep)
    ensures LastPieceFacts(s, sep)
  {
    var rest := Split(s[1..], sep);
    var u := Last(rest);
    assert Split(s, sep) == [[s[0]] + rest[0]] + rest[1..];
    assert Last(Split(s, sep)) == u;
    assert s[|s| - |u|..] == s[1..][|s[1..]| - |u|..];
  }

  lemma {:induction false} LastPiece(s: string, sep: char)
    ensures LastPieceFacts(s, sep)
    decreases |s|
  {
    if s != [] {
      LastPiece(s[1..], sep);
      if s[0] == sep {
        LastPieceAtSep(s, sep);
      } else if |Split(s[1..], sep)| == 1 {
        LastPieceOne(s, sep);
      } else {
        LastPieceMany(s, sep);
      }
    }
  }
}

/** Enumerations of the relational schema shared by several services. */
module Schema {
  /** `VideoVisibility`. */
  datatype Visibility = Public | Private | Paid

  /** `SubscriptionStatus`. */
  datatype SubscriptionStatus = Active | Cancelled | PastDue | Expired
}
