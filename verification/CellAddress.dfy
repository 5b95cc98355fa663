/** Spreadsheet-style cell addresses: bijective base-26 column letters followed by a decimal row. */
module CellAddress {
  import opened Options
  import opened Numerals

  const MAX_LONG: int := 0x7fff_ffff
  const TWO_TO_64: int := 0x1_0000_0000_0000_0000

  /** `towupper` in the C runtime's default "C" locale: ASCII letters only. */
  function ToUpper(c: char): char {
    if 'a' <= c <= 'z' then 'A' + (c - 'a') else c
  }

  function Normalize(s: string): string {
    seq(|s|, i requires 0 <= i < |s| => ToUpper(s[i]))
  }

  predicate IsLetter(c: char) { 'A' <= c <= 'Z' }

  predicate AllLetters(s: string) { forall i :: 0 <= i < |s| ==> IsLetter(s[i]) }

  /** Length of the longest prefix of letters. */
  function LetterRun(s: string): (n: nat)
    ensures n <= |s| && forall i :: 0 <= i < n ==> IsLetter(s[i])
    ensures n < |s| ==> !IsLetter(s[n])
  {
    if s == [] || !IsLetter(s[0]) then 0
    else
      var n := 1 + LetterRun(s[1..]);
      assert forall i :: 1 <= i < n ==> s[i] == s[1..][i - 1];
      n
  }

  /** Value of a letter string, A being 1 and Z being 26. */
  function LetterNumber(s: string): (n: nat)
    requires AllLetters(s)
    ensures s != [] ==> n >= 1
  {
    if s == [] then 0
    else LetterNumber(s[..|s| - 1]) * 26 + (s[|s| - 1] - 'A') as int + 1
  }

  datatype Coordinates = Coordinates(row: int, column: int)

  /** What an address denotes. Values are taken modulo 2^64, the width of the accumulators. */
  function Parsed(raw: string): Option<Coordinates> {
    var address := Normalize(raw);
    var letters := LetterRun(address);
    var digits := DigitRun(address[letters..]);
    if letters == 0 || letters + digits != |address| then None
    else InRange(LetterNumber(address[..letters]), DigitNumber(address[letters..][..digits]))
  }

  /** The range check, on values that wrapped at 2^64. */
  function InRange(column: nat, row: nat): Option<Coordinates> {
    var r, c := row % TWO_TO_64, column % TWO_TO_64;
    if 1 <= r <= MAX_LONG && 1 <= c <= MAX_LONG then Some(Coordinates(r, c)) else None
  }

  lemma {:induction false} ModStep(value: nat, base: nat, digit: nat)
    ensures ((value % TWO_TO_64) * base + digit) % TWO_TO_64 == (value * base + digit) % TWO_TO_64
  {
    var q, r := value / TWO_TO_64, value % TWO_TO_64;
    assert value == q * TWO_TO_64 + r;
    assert value * base + digit == (q * base) * TWO_TO_64 + (r * base + digit) by {
      assert (q * TWO_TO_64 + r) * base == q * TWO_TO_64 * base + r * base;
      assert q * TWO_TO_64 * base == (q * base) * TWO_TO_64;
    }
    RemainderShift(r * base + digit, TWO_TO_64, q * base);
  }

  method ReadLetters(address: string) returns (index: nat, value: nat)
    ensures index == LetterRun(address) && value == LetterNumber(address[..index]) % TWO_TO_64
  {
    index, value := 0, 0;
    while index < |address| && IsLetter(address[index])
      invariant 0 <= index <= |address|
      invariant forall i :: 0 <= i < index ==> IsLetter(address[i])
      invariant value == LetterNumber(address[..index]) % TWO_TO_64
    {
      var digit := (address[index] - 'A') as int + 1;
      ModStep(LetterNumber(address[..index]), 26, digit);
      assert address[..index + 1][..index] == address[..index];
      value := (value * 26 + digit) % TWO_TO_64;
      index := index + 1;
    }
    LetterRunIs(address, index);
  }

  method ReadDigits(digits: string) returns (index: nat, value: nat)
    ensures index == DigitRun(digits) && value == DigitNumber(digits[..index]) % TWO_TO_64
  {
    index, value := 0, 0;
    while index < |digits| && IsDigit(digits[index])
      invariant 0 <= index <= |digits|
      invariant forall i :: 0 <= i < index ==> IsDigit(digits[i])
      invariant value == DigitNumber(digits[..index]) % TWO_TO_64
    {
      var digit := (digits[index] - '0') as int;
      ModStep(DigitNumber(digits[..index]), 10, digit);
      assert digits[..index + 1][..index] == digits[..index];
      value := (value * 10 + digit) % TWO_TO_64;
      index := index + 1;
    }
    DigitRunIs(digits, index);
  }

  /** The parser. Its accumulators are unsigned 64-bit and wrap on long inputs. */
  method ParseCellAddress(raw: string) returns (result: Option<Coordinates>)
    ensures result == Parsed(raw)
  {
    var address := Normalize(raw);
    var letters, column := ReadLetters(address);
    if letters == 0 || letters == |address| {
      return None;
    }
    var digits, row := ReadDigits(address[letters..]);
    if letters + digits != |address| || row < 1 || column < 1 || row > MAX_LONG || column > MAX_LONG {
      return None;
    }
    return Some(Coordinates(row, column));
  }

  lemma {:induction false} LetterRunIs(s: string, n: nat)
    requires n <= |s| && (forall i :: 0 <= i < n ==> IsLetter(s[i])) && (n < |s| ==> !IsLetter(s[n]))
    ensures LetterRun(s) == n
  {
  }

  /** Column letters for a zero-based column. */
  function ColumnLetters(column: nat): (s: string)
    ensures s != [] && AllLetters(s)
  {
    var last := ['A' + (column % 26) as char];
    if column < 26 then last else ColumnLetters(column / 26 - 1) + last
  }

  function Address(row: nat, column: nat): string {
    ColumnLetters(column) + Decimal(row + 1)
  }

  /** The formatter: a do-while loop that prepends letters. */
  method ReferenceCellAddress(row: nat, column: nat) returns (address: string)
    ensures address == Address(row, column)
  {
    var letters, rest := "", column as int;
    var more := true;
    while more
      invariant more ==> rest >= 0 && ColumnLetters(rest) + letters == ColumnLetters(column)
      invariant !more ==> letters == ColumnLetters(column)
      decreases if more then rest + 1 else 0
    {
      var last := ['A' + (rest % 26) as char];
      assert rest >= 26 ==> ColumnLetters(rest / 26 - 1) + ([last[0]] + letters) == ColumnLetters(rest) + letters;
      letters := last + letters;
      rest := rest / 26 - 1;
      more := rest >= 0;
    }
    address := letters + Decimal(row + 1);
  }

  lemma {:induction false} LettersRoundTrip(column: nat)
    ensures LetterNumber(ColumnLetters(column)) == column + 1
  {
    var s := ColumnLetters(column);
    if column >= 26 {
      LettersRoundTrip(column / 26 - 1);
      assert s[..|s| - 1] == ColumnLetters(column / 26 - 1);
    }
  }

  /** Bijective base 26: every nonempty letter string is the name of exactly one column. */
  lemma {:induction false} ColumnRoundTrip(s: string)
    requires s != [] && AllLetters(s)
    ensures ColumnLetters(LetterNumber(s) - 1) == s
  {
    var init, last := s[..|s| - 1], s[|s| - 1];
    assert s == init + [last];
    if init != [] {
      ColumnRoundTrip(init);
    }
    AppendLetter(LetterNumber(init), last);
  }

  lemma {:induction false} AppendLetter(n: nat, last: char)
    requires IsLetter(last)
    ensures ColumnLetters(n * 26 + (last - 'A') as int) ==
            (if n == 0 then [] else ColumnLetters(n - 1)) + [last]
  {
    var column := n * 26 + (last - 'A') as int;
    assert column / 26 == n && column % 26 == (last - 'A') as int;
  }

  lemma {:induction false} ParsedParts(letters: string, digits: string)
    requires letters != [] && AllLetters(letters) && digits != [] && AllDigits(digits)
    ensures LetterRun(Normalize(letters + digits)) == |letters|
    ensures Normalize(letters + digits) == letters + digits
    ensures DigitRun((letters + digits)[|letters|..]) == |digits|
    ensures (letters + digits)[..|letters|] == letters && (letters + digits)[|letters|..] == digits
  {
    var s := letters + digits;
    assert Normalize(s) == s;
    assert s[|letters|] == digits[0];
    LetterRunIs(s, |letters|);
    assert s[|letters|..] == digits;
    DigitRunIs(digits, |digits|);
  }

  lemma {:induction false} ParsedValue(letters: string, digits: string)
    requires letters != [] && AllLetters(letters) && digits != [] && AllDigits(digits)
    requires LetterNumber(letters) < TWO_TO_64 && DigitNumber(digits) < TWO_TO_64
    ensures Parsed(letters + digits) ==
            if 1 <= DigitNumber(digits) <= MAX_LONG && 1 <= LetterNumber(letters) <= MAX_LONG
            then Some(Coordinates(DigitNumber(digits), LetterNumber(letters))) else None
  {
    ParsedParts(letters, digits);
    assert digits[..|digits|] == digits;
    assert Parsed(letters + digits) == InRange(LetterNumber(letters), DigitNumber(digits));
    SmallRange(LetterNumber(letters), DigitNumber(digits));
  }

  lemma {:induction false} SmallRange(column: nat, row: nat)
    requires column < TWO_TO_64 && row < TWO_TO_64
    ensures InRange(column, row) ==
            if 1 <= row <= MAX_LONG && 1 <= column <= MAX_LONG then Some(Coordinates(row, column)) else None
  {
  }

  /** Parsing a formatted address gives its coordinates back, one-based, for every
      32-bit row and column; only the very last row or column overflows. */
  lemma {:induction false} AddressRoundTrip(row: nat, column: nat)
    requires row <= MAX_LONG && column <= MAX_LONG
    ensures Parsed(Address(row, column)) ==
            if row < MAX_LONG && column < MAX_LONG then Some(Coordinates(row + 1, column + 1)) else None
  {
    LettersRoundTrip(column);
    DigitsRoundTrip(row + 1);
    ParsedValue(ColumnLetters(column), Decimal(row + 1));
  }

  lemma {:induction false} AddressIsNormal(row: nat, column: nat)
    ensures Normalize(Address(row, column)) == Address(row, column)
  {
    ParsedParts(ColumnLetters(column), Decimal(row + 1));
  }

  lemma {:induction false} AddressNotEmpty(row: nat, column: nat)
    ensures Address(row, column) != ""
  {
    var letters := ColumnLetters(column);
    assert |letters| > 0;
  }

  lemma {:induction false} AddressDenotes(row: nat, column: nat)
    requires row < MAX_LONG && column < MAX_LONG
    ensures Normalize(Address(row, column)) == Address(row, column) && Address(row, column) != ""
    ensures Parsed(Address(row, column)) == Some(Coordinates(row + 1, column + 1))
  {
    AddressIsNormal(row, column);
    AddressRoundTrip(row, column);
    AddressNotEmpty(row, column);
  }

  /** Normalizing twice changes nothing, and an address means the same before and after. */
  lemma {:induction false} NormalizeIdempotent(s: string)
    ensures Normalize(Normalize(s)) == Normalize(s)
    ensures Parsed(Normalize(s)) == Parsed(s)
  {
  }

  /** `upper` is `s` in upper case: the letters a to z, 32 codes above A to Z, moved down, all else the same. */
  predicate UpperCaseOf(upper: string, s: string) {
    |upper| == |s| && forall i :: 0 <= i < |s| ==>
      upper[i] as int == if 97 <= s[i] as int <= 122 then s[i] as int - 32 else s[i] as int
  }

  lemma {:induction false} NormalizeIsUpperCase(s: string, upper: string)
    ensures UpperCaseOf(upper, s) <==> upper == Normalize(s)
  {
    if UpperCaseOf(upper, s) {
      assert forall i :: 0 <= i < |s| ==> upper[i] == Normalize(s)[i];
    }
  }

  /** `raw`, in whatever case, is a run of letters and then a run of digits, and nothing else. */
  ghost predicate SpelledAs(raw: string, letters: string, digits: string) {
    letters != [] && AllLetters(letters) && AllDigits(digits) && UpperCaseOf(letters + digits, raw)
  }

  /** The values of the two runs, as the 64-bit accumulators hold them, are a row and a column in range. */
  predicate Places(letters: string, digits: string, at: Coordinates)
    requires AllLetters(letters) && AllDigits(digits)
  {
    at == Coordinates(DigitNumber(digits) % TWO_TO_64, LetterNumber(letters) % TWO_TO_64) &&
    1 <= at.row <= MAX_LONG && 1 <= at.column <= MAX_LONG
  }

  /** A text is an address of a place exactly when it is spelled as one. */
  lemma {:induction false} WhenParsed(raw: string, at: Coordinates)
    ensures Parsed(raw) == Some(at) <==>
            exists letters, digits :: SpelledAs(raw, letters, digits) && Places(letters, digits, at)
  {
    if Parsed(raw) == Some(at) {
      var letters, digits := ParsedRuns(raw, at);
    }
    if letters, digits :| SpelledAs(raw, letters, digits) && Places(letters, digits, at) {
      SpelledIsParsed(raw, letters, digits, at);
    }
  }

  lemma {:induction false} ParsedRuns(raw: string, at: Coordinates) returns (letters: string, digits: string)
    requires Parsed(raw) == Some(at)
    ensures SpelledAs(raw, letters, digits) && Places(letters, digits, at)
  {
    var address := Normalize(raw);
    var n := LetterRun(address);
    letters, digits := address[..n], address[n..];
    assert address[n..][..DigitRun(address[n..])] == digits && letters + digits == address;
    NormalizeIsUpperCase(raw, address);
  }

  lemma {:induction false} SpelledIsParsed(raw: string, letters: string, digits: string, at: Coordinates)
    requires SpelledAs(raw, letters, digits) && Places(letters, digits, at)
    ensures Parsed(raw) == Some(at)
  {
    NormalizeIsUpperCase(raw, letters + digits);
    ParsedParts(letters, digits);
    assert digits[..|digits|] == digits;
  }

  // ----- lists of addresses inside a command -----

  /** One step of the scan: the token at the front of a suffix, if there is one, and the rest.
      Letters without digits behind them are skipped. */
  function FrontToken(s: string): (front: (Option<string>, string))
    requires s != []
    ensures |front.1| < |s|
  {
    var letters := LetterRun(Normalize(s));
    if letters == 0 then (None, s[1..])
    else
      var digits := DigitRun(s[letters..]);
      (if digits == 0 then None else Some(Normalize(s[..letters + digits])), s[letters + digits..])
  }

  function AsList(token: Option<string>): seq<string> {
    if token.Some? then [token.value] else []
  }

  /** The letter-then-digit tokens of a command, in order, upper-cased. */
  function Tokens(s: string): seq<string>
    decreases |s|
  {
    if s == [] then []
    else
      var (token, rest) := FrontToken(s);
      AsList(token) + Tokens(rest)
  }

  /** The parseable tokens, each kept at its first occurrence. */
  function Kept(tokens: seq<string>): seq<string> {
    if tokens == [] then []
    else
      var kept, last := Kept(tokens[..|tokens| - 1]), tokens[|tokens| - 1];
      if Parsed(last).Some? && last !in kept then kept + [last] else kept
  }

  /** Reads one token at the front of a suffix that starts with a letter: its letters and its digits. */
  method ReadToken(suffix: string) returns (letters: nat, digits: nat)
    requires suffix != [] && IsLetter(ToUpper(suffix[0]))
    ensures letters == LetterRun(Normalize(suffix)) > 0
    ensures letters + digits <= |suffix| && digits == DigitRun(suffix[letters..])
  {
    letters := 1;
    while letters < |suffix| && IsLetter(ToUpper(suffix[letters]))
      invariant 1 <= letters <= |suffix|
      invariant forall i :: 0 <= i < letters ==> IsLetter(ToUpper(suffix[i]))
    {
      letters := letters + 1;
    }
    LetterRunIs(Normalize(suffix), letters);
    digits := 0;
    while letters + digits < |suffix| && IsDigit(suffix[letters + digits])
      invariant letters + digits <= |suffix|
      invariant forall i :: 0 <= i < digits ==> IsDigit(suffix[letters..][i])
    {
      digits := digits + 1;
    }
    DigitRunIs(suffix[letters..], digits);
  }

  lemma {:induction false} KeptSnoc(tokens: seq<string>, token: string)
    ensures Kept(tokens + [token]) ==
            Kept(tokens) + if Parsed(token).Some? && token !in Kept(tokens) then [token] else []
  {
    assert (tokens + [token])[..|tokens|] == tokens;
  }

  /** Takes the front token off a suffix, if there is one there. */
  method ScanFront(suffix: string) returns (token: Option<string>, rest: string)
    requires suffix != []
    ensures FrontToken(suffix) == (token, rest)
  {
    assert Normalize(suffix)[0] == ToUpper(suffix[0]);
    if !IsLetter(ToUpper(suffix[0])) {
      return None, suffix[1..];
    }
    var letters, digits := ReadToken(suffix);
    token := if digits == 0 then None else Some(Normalize(suffix[..letters + digits]));
    rest := suffix[letters + digits..];
  }

  method KeepToken(token: string, observed: set<string>, addresses: seq<string>, ghost done: seq<string>)
    returns (observed': set<string>, addresses': seq<string>)
    requires (forall a :: a in observed <==> a in addresses) && addresses == Kept(done)
    ensures (forall a :: a in observed' <==> a in addresses') && addresses' == Kept(done + [token])
  {
    KeptSnoc(done, token);
    observed', addresses' := observed, addresses;
    var coordinates := ParseCellAddress(token);
    if coordinates.Some? && token !in observed {
      observed' := observed + {token};
      addresses' := addresses + [token];
    }
  }

  /** `rest` is what is left of the command after the tokens `done`. */
  ghost predicate Scanned(command: string, done: seq<string>, rest: string) {
    Tokens(command) == done + Tokens(rest)
  }

  lemma {:induction false} NothingScanned(command: string)
    ensures Scanned(command, [], command)
  {
    assert [] + Tokens(command) == Tokens(command);
  }

  lemma {:induction false} ScannedOneMore(command: string, done: seq<string>, suffix: string, token: Option<string>,
                                          rest: string)
    requires Scanned(command, done, suffix) && suffix != [] && FrontToken(suffix) == (token, rest)
    ensures Scanned(command, if token.Some? then done + [token.value] else done, rest) && |rest| < |suffix|
  {
    if token.Some? {
      assert done + ([token.value] + Tokens(rest)) == (done + [token.value]) + Tokens(rest);
    } else {
      assert [] + Tokens(rest) == Tokens(rest);
    }
  }

  lemma {:induction false} AllScanned(command: string, done: seq<string>)
    requires Scanned(command, done, [])
    ensures Tokens(command) == done
  {
    assert done + Tokens([]) == done;
  }

  method ParseSelectedCellAddresses(command: string) returns (ok: bool, addresses: seq<string>)
    ensures addresses == Kept(Tokens(command))
    ensures ok <==> addresses != []
  {
    addresses := [];
    var observed: set<string> := {};
    var rest := command;
    ghost var done: seq<string> := [];
    NothingScanned(command);
    while rest != []
      invariant Scanned(command, done, rest)
      invariant addresses == Kept(done)
      invariant forall a :: a in observed <==> a in addresses
      decreases |rest|
    {
      ghost var suffix := rest;
      var token;
      token, rest := ScanFront(rest);
      ScannedOneMore(command, done, suffix, token, rest);
      if token.Some? {
        observed, addresses := KeepToken(token.value, observed, addresses, done);
        done := done + [token.value];
      }
    }
    AllScanned(command, done);
    ok := addresses != [];
  }

  // ----- round trip of a joined list -----

  /** A separator holds no letter, and does not start with a digit the address before it would swallow. */
  predicate IsSeparator(s: string) {
    (forall i :: 0 <= i < |s| ==> !IsLetter(ToUpper(s[i]))) && (s != [] ==> !IsDigit(s[0]))
  }

  function Join(addresses: seq<string>, separators: seq<string>): string
    requires |separators| == |addresses|
  {
    if addresses == [] then []
    else addresses[0] + separators[0] + Join(addresses[1..], separators[1..])
  }

  /** The list itself with every repetition after the first occurrence dropped. */
  function FirstOccurrences(xs: seq<string>): seq<string> {
    if xs == [] then []
    else
      var init, last := xs[..|xs| - 1], xs[|xs| - 1];
      FirstOccurrences(init) + if last in init then [] else [last]
  }

  lemma {:induction false} SkipSeparator(separator: string, rest: string)
    requires forall i :: 0 <= i < |separator| ==> !IsLetter(ToUpper(separator[i]))
    ensures Tokens(separator + rest) == Tokens(rest)
  {
    var s := separator + rest;
    if separator == [] {
      assert s == rest;
    } else {
      assert Normalize(s)[0] == ToUpper(separator[0]);
      assert FrontToken(s) == (None, separator[1..] + rest) by {
        assert s[1..] == separator[1..] + rest;
      }
      SkipSeparator(separator[1..], rest);
    }
  }

  predicate StartsWithDigit(s: string) { s != [] && IsDigit(s[0]) }

  lemma {:induction false} FrontIsAddress(row: nat, column: nat, rest: string)
    requires !StartsWithDigit(rest)
    ensures FrontToken(Address(row, column) + rest) == (Some(Address(row, column)), rest)
  {
    var letters, digits := ColumnLetters(column), Decimal(row + 1);
    var s := Address(row, column) + rest;
    assert s == letters + digits + rest;
    assert s[|letters|..] == digits + rest;
    assert IsDigit(digits[0]) && s[|letters|] == digits[0];
    LetterRunIs(Normalize(s), |letters|);
    DigitRunIs(digits + rest, |digits|);
    assert s[..|letters| + |digits|] == letters + digits == Normalize(letters + digits);
    assert s[|letters| + |digits|..] == rest;
  }

  /** A word of letters, in either case, is skipped when something other than a letter or digit follows. */
  lemma {:induction false} WordIsSkipped(word: string, rest: string)
    requires AllLetters(Normalize(word)) && !StartsWithDigit(rest)
    requires rest != [] ==> !IsLetter(ToUpper(rest[0]))
    ensures Tokens(word + rest) == Tokens(rest)
  {
    var s := word + rest;
    if word == [] {
      assert s == rest;
    } else {
      assert forall i :: 0 <= i < |word| ==> Normalize(s)[i] == Normalize(word)[i];
      assert rest != [] ==> Normalize(s)[|word|] == ToUpper(rest[0]);
      LetterRunIs(Normalize(s), |word|);
      assert s[|word|..] == rest;
      DigitRunIs(rest, 0);
      assert FrontToken(s) == (None, rest);
    }
  }

  lemma {:induction false} NormalizeParts(s: string, n: nat)
    requires n <= |s|
    ensures Normalize(s)[..n] == Normalize(s[..n]) && Normalize(s)[n..] == Normalize(s[n..])
  {
  }

  lemma {:induction false} FrontIs(s: string, letters: nat, digits: nat)
    requires s != [] && letters == LetterRun(Normalize(s)) && digits == DigitRun(s[letters..])
    ensures FrontToken(s) ==
            if letters == 0 then (None, s[1..])
            else (if digits == 0 then None else Some(Normalize(s[..letters + digits])), s[letters + digits..])
  {
  }

  lemma {:induction false} FrontInAnyCase(s: string, upper: string)
    requires s != [] && upper == Normalize(s)
    ensures FrontToken(upper) == (FrontToken(s).0, Normalize(FrontToken(s).1))
  {
    NormalizeIdempotent(s);
    var letters := LetterRun(upper);
    NormalizeParts(s, letters);
    DigitsInAnyCase(s[letters..]);
    var digits := DigitRun(s[letters..]);
    FrontIs(s, letters, digits);
    FrontIs(upper, letters, digits);
    SplitInAnyCase(s, upper, if letters == 0 then 1 else letters + digits);
  }

  lemma {:induction false} SplitInAnyCase(s: string, upper: string, n: nat)
    requires n <= |s| && upper == Normalize(s)
    ensures upper[n..] == Normalize(s[n..]) && Normalize(upper[..n]) == Normalize(s[..n])
  {
    NormalizeParts(s, n);
    NormalizeIdempotent(s[..n]);
  }

  /** The case in which a command is written makes no difference. */
  lemma {:induction false} TokensInAnyCase(s: string)
    ensures Tokens(Normalize(s)) == Tokens(s)
    decreases |s|
  {
    if s != [] {
      FrontInAnyCase(s, Normalize(s));
      TokensInAnyCase(FrontToken(s).1);
    }
  }

  lemma {:induction false} DigitsInAnyCase(s: string)
    ensures DigitRun(Normalize(s)) == DigitRun(s)
  {
    var n := DigitRun(s);
    DigitRunIs(Normalize(s), n);
  }

  predicate AreAddresses(addresses: seq<string>, positions: seq<(nat, nat)>) {
    |addresses| == |positions| &&
    forall i :: 0 <= i < |addresses| ==>
      addresses[i] == Address(positions[i].0, positions[i].1) &&
      positions[i].0 < MAX_LONG && positions[i].1 < MAX_LONG
  }

  lemma {:induction false} JoinStartsWithLetter(addresses: seq<string>, positions: seq<(nat, nat)>,
                                                separators: seq<string>)
    requires |separators| == |addresses| && AreAddresses(addresses, positions)
    ensures !StartsWithDigit(Join(addresses, separators))
  {
    if addresses != [] {
      var letters := ColumnLetters(positions[0].1);
      assert Join(addresses, separators)[0] == addresses[0][0] == letters[0];
    }
  }

  lemma {:induction false} JoinTokens(
    addresses: seq<string>, positions: seq<(nat, nat)>, separators: seq<string>)
    requires |separators| == |addresses| && AreAddresses(addresses, positions)
    requires forall i :: 0 <= i < |separators| ==> IsSeparator(separators[i])
    ensures Tokens(Join(addresses, separators)) == addresses
  {
    if addresses != [] {
      var tail := Join(addresses[1..], separators[1..]);
      JoinTokens(addresses[1..], positions[1..], separators[1..]);
      JoinStartsWithLetter(addresses[1..], positions[1..], separators[1..]);
      JoinStep(positions[0].0, positions[0].1, separators[0], tail);
      assert Join(addresses, separators) == addresses[0] + separators[0] + tail;
      assert [addresses[0]] + addresses[1..] == addresses;
    }
  }

  lemma {:induction false} JoinStep(row: nat, column: nat, separator: string, tail: string)
    requires IsSeparator(separator) && !StartsWithDigit(tail)
    ensures Tokens(Address(row, column) + separator + tail) == [Address(row, column)] + Tokens(tail)
  {
    var s, rest := Address(row, column) + separator + tail, separator + tail;
    assert s == Address(row, column) + rest;
    FrontIsAddress(row, column, rest);
    SkipSeparator(separator, tail);
  }

  lemma {:induction false} KeptIsFirstOccurrences(tokens: seq<string>)
    requires forall i :: 0 <= i < |tokens| ==> Parsed(tokens[i]).Some?
    ensures Kept(tokens) == FirstOccurrences(tokens)
    ensures forall t :: t in Kept(tokens) <==> t in tokens
  {
    if tokens != [] {
      var init, last := tokens[..|tokens| - 1], tokens[|tokens| - 1];
      KeptIsFirstOccurrences(init);
      assert tokens == init + [last];
    }
  }

  /** Reading back a joined list of addresses, whatever precedes it and separates it,
      gives the list without later duplicates. */
  lemma {:induction false} SelectionRoundTrip(
    prefix: string, addresses: seq<string>, positions: seq<(nat, nat)>, separators: seq<string>)
    requires |separators| == |addresses| && AreAddresses(addresses, positions)
    requires forall i :: 0 <= i < |prefix| ==> !IsLetter(ToUpper(prefix[i]))
    requires forall i :: 0 <= i < |separators| ==> IsSeparator(separators[i])
    ensures Kept(Tokens(prefix + Join(addresses, separators))) == FirstOccurrences(addresses)
  {
    SkipSeparator(prefix, Join(addresses, separators));
    JoinTokens(addresses, positions, separators);
    forall i | 0 <= i < |addresses| ensures Parsed(addresses[i]).Some? {
      AddressRoundTrip(positions[i].0, positions[i].1);
    }
    KeptIsFirstOccurrences(addresses);
  }
}
