/** The TimeControl tag of a game (Database_Game_Review.py, `extract_time_control`) and
    the speed class its base time falls in (`determine_time_control`). The tag's
    `seconds+increment` value form is that of section 9.6.1 of the PGN standard; the
    other forms that section allows (`-`, `?`, `moves/seconds`, `*seconds`) are not
    recognised and raise. */
module TimeControl {
  import opened Wrappers
  import opened Text

  /** `determine_time_control(start_time)`. With no tag the caller passes `None`,
      and `None <= 60` raises TypeError. */
  function DetermineTimeControl(startTime: Option<int>): (r: Result<string>)
    ensures startTime.None? <==> r == Err(TypeError)
    ensures startTime.Some? ==> r.Ok? && r.value in SpeedNames
  {
    match startTime
    case None => Err(TypeError)
    case Some(t) =>
      if t <= 60 then Ok("bullet")
      else if t <= 300 then Ok("blitz")
      else if t <= 1800 then Ok("rapid")
      else Ok("classic")
  }

  const SpeedNames: set<string> := {"bullet", "blitz", "rapid", "classic"}

  /** Position of a speed class from fastest (0) to slowest (3). */
  function SpeedRank(name: string): nat {
    if name == "bullet" then 0
    else if name == "blitz" then 1
    else if name == "rapid" then 2
    else 3
  }

  /** Each class is a half-open interval of base times, closed at its upper bound. */
  lemma TimeControlIntervals(t: int)
    ensures DetermineTimeControl(Some(t)) == Ok("bullet") <==> t <= 60
    ensures DetermineTimeControl(Some(t)) == Ok("blitz") <==> 60 < t <= 300
    ensures DetermineTimeControl(Some(t)) == Ok("rapid") <==> 300 < t <= 1800
    ensures DetermineTimeControl(Some(t)) == Ok("classic") <==> 1800 < t
  {
  }

  /** A longer base time never gives a faster class. */
  lemma TimeControlMonotone(a: int, b: int)
    requires a <= b
    ensures SpeedRank(DetermineTimeControl(Some(a)).value) <= SpeedRank(DetermineTimeControl(Some(b)).value)
  {
  }

  predicate IsDigit(c: char) {
    '0' <= c <= '9'
  }

  predicate AllDigits(d: string) {
    forall i :: 0 <= i < |d| ==> IsDigit(d[i])
  }

  /** The digits Python's `int()` accepts in base 10: at least one digit, and
      underscores only singly and between two digits. */
  predicate DigitRun(t: string) {
    && |t| > 0 && IsDigit(t[0]) && IsDigit(t[|t| - 1])
    && (forall i :: 0 <= i < |t| ==> IsDigit(t[i]) || t[i] == '_')
    && (forall i :: 0 <= i < |t| ==> !DoubleUnderscoreAt(t, i))
  }

  predicate DoubleUnderscoreAt(t: string, i: int) {
    0 <= i < |t| - 1 && t[i] == '_' && t[i + 1] == '_'
  }

  function DropUnderscores(t: string): (d: string)
    ensures |d| <= |t|
    ensures (forall i :: 0 <= i < |t| ==> IsDigit(t[i]) || t[i] == '_') ==> AllDigits(d)
    ensures AllDigits(t) ==> d == t
  {
    if t == [] then []
    else (if t[0] == '_' then [] else [t[0]]) + DropUnderscores(t[1..])
  }

  function DigitValue(c: char): nat
    requires IsDigit(c)
  {
    c as int - '0' as int
  }

  /** The number a string of decimal digits denotes. */
  function DigitsValue(d: string): nat
    requires AllDigits(d)
  {
    if d == [] then 0 else DigitsValue(d[..|d| - 1]) * 10 + DigitValue(d[|d| - 1])
  }

  function ParseUnsigned(t: string): Option<nat> {
    if DigitRun(t) then Some(DigitsValue(DropUnderscores(t))) else None
  }

  /** An optional sign, then a digit run. */
  function SignedValue(t: string): Option<int> {
    if |t| > 0 && t[0] == '-' then
      match ParseUnsigned(t[1..])
      case Some(n) => Some(-(n as int))
      case None => None
    else if |t| > 0 && t[0] == '+' then
      match ParseUnsigned(t[1..])
      case Some(n) => Some(n)
      case None => None
    else ParseUnsigned(t)
  }

  /** The whitespace `int()` skips around a number: `\t` to `\r` and the space among
      ASCII characters, and every non-ASCII character `str.isspace()` accepts. The
      separators U+001C to U+001F are whitespace to `str.strip()` but not to `int()`. */
  predicate IntSpace(c: char) {
    ('\t' <= c <= '\r') || c == ' ' || ('\U{80}' <= c && IsSpace(c))
  }

  function IntTrimStart(s: string): string {
    if |s| > 0 && IntSpace(s[0]) then IntTrimStart(s[1..]) else s
  }

  function IntTrimEnd(s: string): string {
    if |s| > 0 && IntSpace(s[|s| - 1]) then IntTrimEnd(s[..|s| - 1]) else s
  }

  /** The text `int()` reads once the whitespace around it is skipped. */
  function IntStrip(s: string): string {
    IntTrimEnd(IntTrimStart(s))
  }

  /** Python's `int(text)` on ASCII digits: surrounding whitespace, an optional sign,
      then a digit run; anything else raises ValueError (here: `None`). */
  function ParseInt(text: string): Option<int> {
    SignedValue(IntStrip(text))
  }

  /** Every character `int()` skips is whitespace to `str.isspace()` too, but not the
      other way round. */
  lemma IntSpaceIsSpace(c: char)
    ensures IntSpace(c) ==> IsSpace(c)
    ensures IsSpace('\U{1C}') && !IntSpace('\U{1C}')
  {
  }

  /** Whitespace around a number is skipped, the separator U+001C is not. */
  lemma ParseIntPadding()
    ensures ParseInt(" 60\n") == Some(60)
    ensures ParseInt("\U{1C}60") == None
  {
    assert ParseInt(" 60\n") == Some(60) by {
      assert IntStrip(" 60\n") == "60" by {
        assert IntTrimStart(" 60\n") == "60\n";
        assert IntTrimEnd("60\n") == "60";
      }
      ParseUnsignedDigits("60");
    }
    assert AllDigits("60");
    ParseIntSeparatorPadded("60");
  }

  /** The decimal rendering of a natural number, as `str(n)` writes it. */
  function ShowNat(n: nat): (d: string)
    ensures |d| > 0 && AllDigits(d)
  {
    if n < 10 then ['0' + n as char] else ShowNat(n / 10) + ['0' + (n % 10) as char]
  }

  lemma {:induction false} ShowNatValue(n: nat)
    ensures DigitsValue(ShowNat(n)) == n
    decreases n
  {
    if n >= 10 {
      ShowNatValue(n / 10);
      var d := ShowNat(n);
      assert d[..|d| - 1] == ShowNat(n / 10);
    }
  }

  /** `int(str(n)) == n`. */
  lemma ParseIntShowNat(n: nat)
    ensures ParseInt(ShowNat(n)) == Some(n)
  {
    ShowNatValue(n);
    ParseIntDigitsOf(ShowNat(n), n);
  }

  /** A digit string denoting `n` reads back as `n`. */
  lemma ParseIntDigitsOf(d: string, n: nat)
    requires |d| > 0 && AllDigits(d) && DigitsValue(d) == n
    ensures ParseInt(d) == Some(n)
  {
    ParseIntDigits(d);
  }

  /** `int(d)` for a plain run of digits. */
  lemma ParseIntDigits(d: string)
    requires |d| > 0 && AllDigits(d)
    ensures ParseInt(d) == Some(DigitsValue(d))
  {
    assert IsDigit(d[0]) && IsDigit(d[|d| - 1]);
    IntStripUnpadded(d);
    SignedValueOfDigits(d);
  }

  lemma SignedValueOfDigits(d: string)
    requires |d| > 0 && AllDigits(d)
    ensures SignedValue(d) == Some(DigitsValue(d))
  {
    ParseUnsignedDigits(d);
    assert IsDigit(d[0]);
  }

  /** A minus sign before a run of digits negates its value. */
  lemma SignedValueOfNegatedDigits(d: string)
    requires |d| > 0 && AllDigits(d)
    ensures SignedValue("-" + d) == Some(-(DigitsValue(d) as int))
  {
    var m := "-" + d;
    assert m[1..] == d;
    ParseUnsignedDigits(d);
    SignedValueOfMinus(m);
  }

  lemma SignedValueOfMinus(m: string)
    requires |m| > 0 && m[0] == '-' && ParseUnsigned(m[1..]).Some?
    ensures SignedValue(m) == Some(-(ParseUnsigned(m[1..]).value as int))
  {
  }

  lemma ParseUnsignedDigits(d: string)
    requires |d| > 0 && AllDigits(d)
    ensures ParseUnsigned(d) == Some(DigitsValue(d))
  {
    assert DigitRun(d) by {
      assert forall i :: 0 <= i < |d| ==> !DoubleUnderscoreAt(d, i) by {
        forall i | 0 <= i < |d| ensures !DoubleUnderscoreAt(d, i) {
          assert IsDigit(d[i]);
        }
      }
    }
    assert DropUnderscores(d) == d;
  }

  /** Text that neither starts nor ends with whitespace is read by `int()` as it is. */
  lemma IntStripUnpadded(s: string)
    requires |s| > 0 && !IntSpace(s[0]) && !IntSpace(s[|s| - 1])
    ensures IntStrip(s) == s
  {
  }

  function CountChar(s: string, c: char): nat {
    if s == [] then 0 else (if s[0] == c then 1 else 0) + CountChar(s[1..], c)
  }

  lemma {:induction false} CountCharAppend(a: string, b: string, c: char)
    ensures CountChar(a + b, c) == CountChar(a, c) + CountChar(b, c)
    decreases |a|
  {
    if a != [] {
      CountCharAppend(a[1..], b, c);
      var ab := a + b;
      assert ab[0] == a[0];
      assert ab[1..] == a[1..] + b;
      assert CountChar(ab, c) == (if a[0] == c then 1 else 0) + CountChar(a[1..] + b, c);
    } else {
      assert a + b == b;
    }
  }

  lemma {:induction false} CountCharZero(s: string, c: char)
    ensures CountChar(s, c) == 0 <==> c !in s
    decreases |s|
  {
    if s != [] {
      CountCharZero(s[1..], c);
      assert s == [s[0]] + s[1..];
    }
  }

  /** The first position at or after `i` holding `c`, or `|s|`. */
  function IndexFrom(s: string, c: char, i: nat): (e: nat)
    requires i <= |s|
    ensures i <= e <= |s|
    ensures e < |s| ==> s[e] == c
    ensures forall j :: i <= j < e ==> s[j] != c
    decreases |s| - i
  {
    if i == |s| || s[i] == c then i else IndexFrom(s, c, i + 1)
  }

  /** `start_time, increment = value.split('+')`: the text on either side of the
      first `+`, when there is no second one. */
  function SplitPlus(value: string): Option<(string, string)> {
    var i := IndexFrom(value, '+', 0);
    if i == |value| then None
    else if '+' in value[i + 1..] then None
    else Some((value[..i], value[i + 1..]))
  }

  /** The split succeeds exactly when the value holds one `+`, and then gives the
      `+`-free text on either side of it. */
  lemma SplitPlusSpec(value: string)
    ensures SplitPlus(value).Some? <==> CountChar(value, '+') == 1
    ensures SplitPlus(value).Some? ==> SplitPlus(value).value.0 + "+" + SplitPlus(value).value.1 == value
    ensures SplitPlus(value).Some? ==> '+' !in SplitPlus(value).value.0 && '+' !in SplitPlus(value).value.1
  {
    var i := IndexFrom(value, '+', 0);
    if i < |value| {
      CountAfterFirst(value, i, '+');
      CountCharZero(value[i + 1..], '+');
      JoinAround(value, i);
      assert [value[i]] == "+";
    } else {
      assert value[..i] == value;
      CountCharZero(value, '+');
    }
  }

  lemma JoinAround(s: string, i: nat)
    requires i < |s|
    ensures s[..i] + [s[i]] + s[i + 1..] == s
  {
    assert forall j :: 0 <= j < |s| ==> (s[..i] + [s[i]] + s[i + 1..])[j] == s[j];
  }

  /** Cutting at the first occurrence of `c` leaves one fewer `c` after it. */
  lemma CountAfterFirst(s: string, i: nat, c: char)
    requires i < |s| && s[i] == c && forall j :: 0 <= j < i ==> s[j] != c
    ensures CountChar(s, c) == 1 + CountChar(s[i + 1..], c)
  {
    assert s == s[..i] + ([s[i]] + s[i + 1..]);
    CountCharAppend(s[..i], [s[i]] + s[i + 1..], c);
    CountCharZero(s[..i], c);
  }

  /** The literal text before the captured value of `\[TimeControl "([^"]+)"\]`. */
  const TimeControlOpen: string := "[TimeControl \""

  /** The group `([^"]+)` captures when the pattern matches at `p`: the text up to the
      first quote, which must be non-empty and followed by `]`. */
  function TagValueAt(s: string, p: nat): Option<string>
    requires p <= |s|
  {
    if !StartsWith(s[p..], TimeControlOpen) then None
    else
      var q := p + |TimeControlOpen|;
      var e := IndexFrom(s, '"', q);
      if q < e && e + 1 < |s| && s[e + 1] == ']' then Some(s[q..e]) else None
  }

  /** Reference reading of the pattern: the literal opening, a non-empty run without
      quotes, then `"]`. */
  ghost predicate TimeControlMatch(s: string, p: int, value: string) {
    0 <= p <= |s| && value != [] && '"' !in value
    && StartsWith(s[p..], TimeControlOpen + value + "\"]")
  }

  lemma TagValueAtIff(s: string, p: nat, value: string)
    requires p <= |s|
    ensures TagValueAt(s, p) == Some(value) <==> TimeControlMatch(s, p, value)
  {
    var pattern := TimeControlOpen + value + "\"]";
    var q := p + |TimeControlOpen|;
    if TimeControlMatch(s, p, value) {
      assert s[p..][..|TimeControlOpen|] == pattern[..|TimeControlOpen|];
      assert forall j :: q <= j < q + |value| ==> s[j] == s[p..][..|pattern|][j - p] == value[j - q];
      var e := IndexFrom(s, '"', q);
      assert s[q + |value|] == s[p..][..|pattern|][|TimeControlOpen| + |value|] == '"';
      assert e == q + |value|;
      assert s[e + 1] == s[p..][..|pattern|][|TimeControlOpen| + |value| + 1] == ']';
      assert s[q..e] == value;
    }
    if TagValueAt(s, p) == Some(value) {
      var e := IndexFrom(s, '"', q);
      assert value == s[q..e];
      assert s[p..][..|pattern|] == pattern;
    }
  }

  /** `re.search`: the value at the leftmost position from `i` on where the pattern matches. */
  function SearchTimeControl(s: string, i: nat): (r: Option<string>)
    requires i <= |s|
    decreases |s| - i
  {
    if TagValueAt(s, i).Some? then TagValueAt(s, i)
    else if i == |s| then None
    else SearchTimeControl(s, i + 1)
  }

  /** No match starts in `[i, p)`. */
  ghost predicate NoneBefore(s: string, i: int, p: int) {
    forall q :: 0 <= i <= q < p <= |s| ==> TagValueAt(s, q).None?
  }

  /** The search finds nothing exactly when no position from `i` on matches. */
  lemma {:induction false} SearchNoneIff(s: string, i: nat)
    requires i <= |s|
    ensures SearchTimeControl(s, i).None? <==> forall p :: i <= p <= |s| ==> TagValueAt(s, p).None?
    decreases |s| - i
  {
    if TagValueAt(s, i).None? && i < |s| {
      SearchNoneIff(s, i + 1);
    }
  }

  /** When the search finds a value, it is the one at the leftmost matching position. */
  lemma {:induction false} SearchIsLeftmost(s: string, i: nat) returns (p: nat)
    requires i <= |s| && SearchTimeControl(s, i).Some?
    ensures i <= p <= |s| && TagValueAt(s, p) == SearchTimeControl(s, i) && NoneBefore(s, i, p)
    decreases |s| - i
  {
    if TagValueAt(s, i).Some? {
      p := i;
    } else {
      p := SearchIsLeftmost(s, i + 1);
    }
  }

  /** What `extract_time_control` returns: no tag, or the two integers of its value. */
  datatype TimeControlTag = NoTag | Tag(startTime: int, increment: int)

  /** `extract_time_control(game_data)`. A tag whose value does not hold exactly one
      `+`, or whose two sides are not integers, raises ValueError. */
  function ExtractTimeControl(game: string): (r: Result<TimeControlTag>)
    ensures r == Ok(NoTag) <==> SearchTimeControl(game, 0).None?
    ensures r.Err? ==> r.error == ValueError
    ensures SearchTimeControl(game, 0).Some? && CountChar(SearchTimeControl(game, 0).value, '+') != 1
      ==> r == Err(ValueError)
  {
    match SearchTimeControl(game, 0)
    case None => Ok(NoTag)
    case Some(value) =>
      SplitPlusSpec(value);
      match SplitPlus(value)
      case None => Err(ValueError)
      case Some((before, after)) =>
        match (ParseInt(before), ParseInt(after))
        case (Some(startTime), Some(increment)) => Ok(Tag(startTime, increment))
        case _ => Err(ValueError)
  }

  /** A tag preceded by text in which the tag opening `[TimeControl "` does not occur is
      the one the search finds, whatever other tags come before it. */
  lemma {:induction false} SearchFindsFirstTag(pre: string, value: string, post: string, i: nat)
    requires !Contains(pre, TimeControlOpen) && value != [] && '"' !in value && i <= |pre|
    ensures var game := pre + TimeControlOpen + value + "\"]" + post;
      SearchTimeControl(game, i) == Some(value)
    decreases |pre| - i
  {
    var game := pre + TimeControlOpen + value + "\"]" + post;
    var tag := TimeControlOpen + value + "\"]";
    if i < |pre| {
      NoOpenBefore(pre, TimeControlOpen + value + "\"]" + post, i);
      assert game == pre + (TimeControlOpen + value + "\"]" + post);
      SearchFindsFirstTag(pre, value, post, i + 1);
    } else {
      assert game[i..][..|tag|] == tag;
      TagValueAtIff(game, i, value);
    }
  }

  /** No tag opening starts inside `pre` when `pre` does not hold one and the text after
      it opens with `[TimeControl "`: the opening holds `[` only at its start. */
  lemma NoOpenBefore(pre: string, rest: string, i: nat)
    requires !Contains(pre, TimeControlOpen) && StartsWith(rest, TimeControlOpen) && i < |pre|
    ensures !StartsWith((pre + rest)[i..], TimeControlOpen)
  {
    var s := pre + rest;
    var n := |TimeControlOpen|;
    assert !OccursAt(pre, TimeControlOpen, i);
    assert s[|pre|] == rest[0] == '[';
    assert forall k :: 0 < k < n ==> TimeControlOpen[k] != '[';
    if i + n <= |pre| {
      assert s[i..i + n] == pre[i..i + n];
    }
  }

  /** `extract_time_control` reads back the two numbers of a well-formed tag. */
  lemma ExtractTimeControlRoundTrip(pre: string, startTime: nat, increment: nat, post: string)
    requires !Contains(pre, TimeControlOpen)
    ensures ExtractTimeControl(pre + TimeControlOpen + ShowNat(startTime) + "+" + ShowNat(increment) + "\"]" + post)
      == Ok(Tag(startTime, increment))
  {
    var a, b := ShowNat(startTime), ShowNat(increment);
    var value := a + "+" + b;
    var game := pre + TimeControlOpen + a + "+" + b + "\"]" + post;
    assert game == pre + TimeControlOpen + value + "\"]" + post;
    SplitDigitPair(a, b);
    SearchFindsFirstTag(pre, value, post, 0);
    ParseIntShowNat(startTime);
    ParseIntShowNat(increment);
    ExtractReadsParts(game, value, a, b);
  }

  lemma ExtractReadsParts(game: string, value: string, a: string, b: string)
    requires SearchTimeControl(game, 0) == Some(value) && SplitPlus(value) == Some((a, b))
    requires ParseInt(a).Some? && ParseInt(b).Some?
    ensures ExtractTimeControl(game) == Ok(Tag(ParseInt(a).value, ParseInt(b).value))
  {
  }

  /** A value that splits at its `+` but has a part `int()` rejects raises ValueError. */
  lemma ExtractRejectsParts(game: string, value: string, a: string, b: string)
    requires SearchTimeControl(game, 0) == Some(value) && SplitPlus(value) == Some((a, b))
    requires ParseInt(a).None? || ParseInt(b).None?
    ensures ExtractTimeControl(game) == Err(ValueError)
  {
  }

  /** A base time padded with the separator U+001C raises ValueError, although
      `strip()` would remove the separator. */
  lemma SeparatorPaddedTagRaises(pre: string, d: string, b: string, post: string)
    requires !Contains(pre, TimeControlOpen) && |d| > 0 && AllDigits(d) && AllDigits(b)
    ensures ExtractTimeControl(pre + TimeControlOpen + ("\U{1C}" + d) + "+" + b + "\"]" + post) == Err(ValueError)
  {
    var a := "\U{1C}" + d;
    var value := a + "+" + b;
    var game := pre + TimeControlOpen + a + "+" + b + "\"]" + post;
    assert game == pre + TimeControlOpen + value + "\"]" + post;
    assert forall j :: 0 <= j < |a| ==> a[j] == '\U{1C}' || IsDigit(a[j]);
    assert forall j :: 0 <= j < |value| ==> value[j] == (if j < |a| then a[j] else if j == |a| then '+' else b[j - |a| - 1]);
    SplitPair(a, b);
    SearchFindsFirstTag(pre, value, post, 0);
    ParseIntSeparatorPadded(d);
    ExtractRejectsParts(game, value, a, b);
  }

  /** `int()` rejects digits after the separator U+001C. */
  lemma ParseIntSeparatorPadded(d: string)
    requires |d| > 0 && AllDigits(d)
    ensures ParseInt("\U{1C}" + d) == None
  {
    var t := "\U{1C}" + d;
    assert t[0] == '\U{1C}' && t[|t| - 1] == d[|d| - 1];
    IntStripUnpadded(t);
  }

  /** Two digit strings joined by `+` form a tag value that splits back into them. */
  lemma SplitDigitPair(a: string, b: string)
    requires AllDigits(a) && AllDigits(b)
    ensures var value := a + "+" + b;
      value != [] && '"' !in value && SplitPlus(value) == Some((a, b))
  {
    var value := a + "+" + b;
    assert forall j :: 0 <= j < |value| ==> value[j] == (if j < |a| then a[j] else if j == |a| then '+' else b[j - |a| - 1]);
    assert '+' !in a && '+' !in b;
    SplitPair(a, b);
  }

  /** Two parts without `+` joined by `+` split back into them. */
  lemma SplitPair(a: string, b: string)
    requires '+' !in a && '+' !in b
    ensures SplitPlus(a + "+" + b) == Some((a, b))
  {
    var value := a + "+" + b;
    CountCharZero(a, '+');
    CountCharZero(b, '+');
    CountCharAppend(a, "+" + b, '+');
    CountCharAppend("+", b, '+');
    assert value == a + ("+" + b);
    SplitPlusSpec(value);
    var parts := SplitPlus(value).value;
    SplitUnique(a, b, parts.0, parts.1);
  }

  /** Splitting at the only `+` has one answer. */
  lemma SplitUnique(a: string, b: string, c: string, d: string)
    requires a + "+" + b == c + "+" + d
    requires '+' !in a && '+' !in c
    ensures a == c && b == d
  {
    var s := a + "+" + b;
    assert forall j :: 0 <= j < |a| ==> s[j] == a[j];
    assert forall j :: 0 <= j < |c| ==> s[j] == c[j];
    assert s[|a|] == '+' && s[|c|] == '+';
    assert |a| == |c|;
    assert s[..|a|] == a && s[|a| + 1..] == b;
  }

  /** A tag whose value holds no `+` raises ValueError. */
  lemma NoPlusRaises(pre: string, value: string, post: string)
    requires !Contains(pre, TimeControlOpen) && value != [] && '"' !in value && '+' !in value
    ensures ExtractTimeControl(pre + TimeControlOpen + value + "\"]" + post) == Err(ValueError)
  {
    SearchFindsFirstTag(pre, value, post, 0);
    CountCharZero(value, '+');
  }

  /** The other value forms of the PGN standard (`-`, `?`, `1/86400`) raise ValueError
      instead of reading as "no time control". */
  lemma NonIncrementFormsRaise(pre: string, value: string, post: string)
    requires !Contains(pre, TimeControlOpen)
    requires value == "-" || value == "?" || value == "1/86400"
    ensures ExtractTimeControl(pre + TimeControlOpen + value + "\"]" + post) == Err(ValueError)
  {
    assert value != [] && '"' !in value && '+' !in value;
    NoPlusRaises(pre, value, post);
  }
}
