/**
 Hierarchical wallet derivation paths: the parser of their textual form against the printer.

 Text is a sequence of Unicode characters. Numbers are read by the big-integer scanner in base zero: an optional sign,
 then binary, octal, decimal or hexadecimal digits by prefix, with single underscores between digits.
 */
module DerivationPaths {
  import opened Common

  type Path = seq<nat>

  const HARDENED: nat := 0x8000_0000
  const MAX_WORD: nat := 0xFFFF_FFFF

  /** Relative paths are appended to this root. */
  const DEFAULT_ROOT: Path := [HARDENED + 44, HARDENED + 60, HARDENED, 0]

  datatype ParseError = EmptyPath | AmbiguousPath | InvalidComponent(text: string) | OutOfRange(number: int, max: nat)

  datatype Result<+T> = Ok(value: T) | Err(error: ParseError)

  // ---------------------------------------------------------------- text

  /** The pieces between slashes, of which there is always one. */
  function Split(s: string): (r: seq<string>)
    ensures |r| > 0
  {
    if s == [] then [""]
    else
      var rest := Split(s[1..]);
      if s[0] == '/' then [""] + rest else [[s[0]] + rest[0]] + rest[1..]
  }

  predicate IsSpace(c: char)
  {
    || '\t' <= c <= '\r' || c == ' ' || c == '\U{85}' || c == '\U{A0}' || c == '\U{1680}'
      || '\U{2000}' <= c <= '\U{200A}'
    || c == '\U{2028}' || c == '\U{2029}' || c == '\U{202F}' || c == '\U{205F}' || c == '\U{3000}'
  }

  function TrimLeft(s: string): string
  {
    if s != [] && IsSpace(s[0]) then TrimLeft(s[1..]) else s
  }

  function TrimRight(s: string): string
  {
    if s != [] && IsSpace(s[|s| - 1]) then TrimRight(s[..|s| - 1]) else s
  }

  function TrimSpace(s: string): string
  {
    TrimRight(TrimLeft(s))
  }

  predicate EndsWithQuote(s: string)
  {
    s != [] && s[|s| - 1] == '\''
  }

  // ---------------------------------------------------------------- numbers

  /** The scanner's state: what the last character was, whether an underscore was misplaced, the digits seen and their
      value. */
  datatype Prev = Start | Digit | Underscore
  datatype Scan = Scan(prev: Prev, misplaced: bool, count: nat, value: nat)

  function DigitValue(c: char): int
  {
    if '0' <= c <= '9' then c as int - '0' as int
    else if 'a' <= c <= 'z' then c as int - 'a' as int + 10
    else if 'A' <= c <= 'Z' then c as int - 'A' as int + 10
    else 63
  }

  function ScanChar(st: Scan, c: char, b: nat): Option<Scan>
  {
    if c == '_' then Some(st.(prev := Underscore, misplaced := st.misplaced || st.prev != Digit))
    else if DigitValue(c) >= b then None
    else Some(Scan(Digit, st.misplaced, st.count + 1, st.value * b + DigitValue(c)))
  }

  /** Scans a whole text; `None` if some character does not belong to the number. */
  function ScanAll(s: string, b: nat, st: Scan): Option<Scan>
    decreases |s|
  {
    if s == [] then Some(st)
    else match ScanAll(s[..|s| - 1], b, st)
      case Some(m) => ScanChar(m, s[|s| - 1], b)
      case None => None
  }

  /** The number a text without sign denotes. */
  function ScanNat(s: string): Option<nat>
  {
    var bare := Scan(Start, false, 0, 0);
    var zero := Scan(Digit, false, 0, 0);
    if s == "0" then Some(0)
    else
      var scan :=
        if s == [] || s[0] != '0' then ScanAll(s, 10, bare)
        else if (s[1] == 'b' || s[1] == 'B') then ScanAll(s[2..], 2, zero)
        else if (s[1] == 'o' || s[1] == 'O') then ScanAll(s[2..], 8, zero)
        else if (s[1] == 'x' || s[1] == 'X') then ScanAll(s[2..], 16, zero)
        else ScanAll(s[1..], 8, zero);
      match scan
      case Some(st) => if st.misplaced || st.prev == Underscore || st.count == 0 then None else Some(st.value)
      case None => None
  }

  /** The number a text denotes, all of it consumed. */
  function SetString(s: string): Option<int>
  {
    if s == [] then None
    else
      var text := if s[0] == '+' || s[0] == '-' then s[1..] else s;
      match ScanNat(text)
      case Some(n) => var v: int := n; Some(if s[0] == '-' then -v else v)
      case None => None
  }

  // ---------------------------------------------------------------- parsing

  /** The value of a component's number, hardened or not. */
  function Value(digits: string, hardened: bool): Result<nat>
  {
    var base := if hardened then HARDENED else 0;
    match SetString(digits)
    case None => Err(InvalidComponent(digits))
    case Some(n) => if n < 0 || n > MAX_WORD - base then Err(OutOfRange(n, MAX_WORD - base)) else Ok(base + n)
  }

  /** One component of a path. */
  function Component(text: string): Result<nat>
  {
    var trimmed := TrimSpace(text);
    if EndsWithQuote(trimmed) then Value(TrimSpace(trimmed[..|trimmed| - 1]), true) else Value(trimmed, false)
  }

  /** Values appended to a path; the first bad one decides the error. */
  function Collect(values: seq<Result<nat>>, path: Path): Result<Path>
  {
    if values == [] then Ok(path)
    else match Collect(values[..|values| - 1], path)
      case Err(e) => Err(e)
      case Ok(p) =>
        match values[|values| - 1]
        case Err(e) => Err(e)
        case Ok(n) => Ok(p + [n])
  }

  function Each(f: string -> Result<nat>, texts: seq<string>): seq<Result<nat>>
  {
    seq(|texts|, i requires 0 <= i < |texts| => f(texts[i]))
  }

  function Values(texts: seq<string>): seq<Result<nat>>
  {
    Each(Component, texts)
  }

  /** The components appended to a path. */
  function Components(texts: seq<string>, path: Path): Result<Path>
  {
    Collect(Values(texts), path)
  }

  function Parse(text: string): Result<Path>
  {
    var pieces := Split(text);
    if TrimSpace(pieces[0]) == "" then Err(AmbiguousPath)
    else if TrimSpace(pieces[0]) != "m" then Components(pieces, DEFAULT_ROOT)
    else if |pieces| == 1 then Err(EmptyPath)
    else Components(pieces[1..], [])
  }

  method ParseDerivationPath(text: string) returns (r: Result<Path>)
    ensures r == Parse(text)
  {
    var pieces := Split(text);
    var result: Path := [];
    if TrimSpace(pieces[0]) == "" {
      return Err(AmbiguousPath);
    } else if TrimSpace(pieces[0]) == "m" {
      pieces := pieces[1..];
    } else {
      result := DEFAULT_ROOT;
    }
    if |pieces| == 0 {
      return Err(EmptyPath);
    }
    r := ParseComponents(pieces, result);
  }

  method ParseComponents(pieces: seq<string>, start: Path) returns (r: Result<Path>)
    ensures r == Components(pieces, start)
  {
    var result := start;
    ghost var values := Values(pieces);
    var i := 0;
    while i < |pieces|
      invariant 0 <= i <= |pieces| && Collect(values[..i], start) == Ok(result)
    {
      var value := ParseComponent(pieces[i]);
      assert value == values[i];
      CollectStep(values, start, i);
      if value.Err? {
        return Err(value.error);
      }
      result := result + [value.value];
      i := i + 1;
    }
    assert values[..i] == values;
    return Ok(result);
  }

  method ParseComponent(piece: string) returns (r: Result<nat>)
    ensures r == Component(piece)
  {
    var component := TrimSpace(piece);
    var value := 0;
    if EndsWithQuote(component) {
      value := HARDENED;
      component := TrimSpace(component[..|component| - 1]);
    }
    var number := SetString(component);
    if number.None? {
      return Err(InvalidComponent(component));
    }
    var max := MAX_WORD - value;
    if number.value < 0 || number.value > max {
      return Err(OutOfRange(number.value, max));
    }
    return Ok(value + number.value);
  }

  lemma CollectStep(values: seq<Result<nat>>, path: Path, i: nat)
    requires i < |values| && Collect(values[..i], path).Ok?
    ensures values[i].Ok? ==> Collect(values[..i + 1], path) == Ok(Collect(values[..i], path).value + [values[i].value])
    ensures values[i].Err? ==> Collect(values, path) == Err(values[i].error)
  {
    assert values[..i + 1][..i] == values[..i];
    if values[i].Err? {
      FirstError(values, path, i);
    }
  }

  lemma {:induction false} FirstError(values: seq<Result<nat>>, path: Path, i: nat)
    requires i < |values| && Collect(values[..i], path).Ok? && values[i].Err?
    ensures Collect(values, path) == Err(values[i].error)
    decreases |values|
  {
    var init := values[..|values| - 1];
    if i < |values| - 1 {
      assert init[..i] == values[..i];
      FirstError(init, path, i);
    } else {
      assert init == values[..i];
    }
  }

  // ---------------------------------------------------------------- printing

  function DigitChar(d: nat): (c: char)
    requires d < 16
    ensures DigitValue(c) == d && c != '_' && !IsSpace(c) && c != '/' && c != '\'' && c != '+' && c != '-'
    ensures (c == '0' <==> d == 0) && (d < 10 ==> '0' <= c <= '9')
  {
    (if d < 10 then '0' as int + d else 'a' as int + d - 10) as char
  }

  /** The digits of a number in some base, the highest first. */
  function InBase(n: nat, b: nat): string
    requires 2 <= b <= 16
  {
    if n < b then [DigitChar(n)] else InBase(n / b, b) + [DigitChar(n % b)]
  }

  function Decimal(n: nat): string
  {
    InBase(n, 10)
  }

  function Text(component: nat): string
  {
    if component >= HARDENED then Decimal(component - HARDENED) + "'" else Decimal(component)
  }

  function Print(path: Path): string
  {
    if path == [] then "m" else Print(path[..|path| - 1]) + "/" + Text(path[|path| - 1])
  }

  method ToString(path: Path) returns (r: string)
    ensures r == Print(path)
  {
    r := "m";
    var i := 0;
    while i < |path|
      invariant 0 <= i <= |path| && r == Print(path[..i])
    {
      assert path[..i + 1][..i] == path[..i];
      var component, hardened := path[i], false;
      if component >= HARDENED {
        component, hardened := component - HARDENED, true;
      }
      var before := r;
      r := r + "/" + Decimal(component);
      if hardened {
        r := r + "'";
        assert r == before + "/" + (Decimal(component) + "'");
      }
      i := i + 1;
    }
    assert path[..i] == path;
  }

  // ---------------------------------------------------------------- the round trip

  ghost predicate Digits(s: string)
  {
    forall i :: 0 <= i < |s| ==> '0' <= s[i] <= '9'
  }

  lemma {:induction false} DecimalShape(n: nat)
    ensures Decimal(n) != [] && Digits(Decimal(n)) && (n > 0 ==> Decimal(n)[0] != '0')
  {
    if n >= 10 {
      DecimalShape(n / 10);
    }
  }

  lemma Smaller(n: nat, b: nat)
    requires b >= 2 && n >= b
    ensures 0 < n / b < n && 0 <= n % b < b && n / b * b + n % b == n
  {
  }

  /** Scanning the digits of a number in a base gives the number. */
  lemma {:induction false} ScanInBase(n: nat, b: nat, st: Scan)
    requires 2 <= b <= 16 && st.value == 0 && !st.misplaced
    ensures var r := ScanAll(InBase(n, b), b, st);
      r.Some? && r.value.prev == Digit && !r.value.misplaced && r.value.count > 0 && r.value.value == n
    decreases n
  {
    var text := InBase(n, b);
    if n < b {
      assert text[..0] == [];
    } else {
      Smaller(n, b);
      ScanInBase(n / b, b, st);
      assert text[..|text| - 1] == InBase(n / b, b) && text[|text| - 1] == DigitChar(n % b);
    }
  }

  lemma DecimalParses(n: nat)
    ensures SetString(Decimal(n)) == Some(n)
  {
    DecimalShape(n);
    ScanInBase(n, 10, Scan(Start, false, 0, 0));
    if n == 0 {
      assert Decimal(n) == "0";
    }
  }

  lemma {:induction false} TrimNothing(s: string)
    requires forall i :: 0 <= i < |s| ==> !IsSpace(s[i])
    ensures TrimSpace(s) == s
  {
  }

  lemma DigitsComponent(s: string)
    requires Digits(s)
    ensures Component(s) == Value(s, false) && Component(s + "'") == Value(s, true)
  {
    TrimNothing(s);
    TrimNothing(s + "'");
    assert (s + "'")[..|s|] == s;
  }

  lemma DecimalComponent(n: nat)
    requires n < HARDENED
    ensures Component(Decimal(n)) == Ok(n) && Component(Decimal(n) + "'") == Ok(HARDENED + n)
  {
    DecimalShape(n);
    DecimalParses(n);
    DigitsComponent(Decimal(n));
  }

  /** Every 32-bit component parses back from its text. */
  lemma TextParses(component: nat)
    requires component <= MAX_WORD
    ensures Component(Text(component)) == Ok(component)
  {
    DecimalComponent(if component >= HARDENED then component - HARDENED else component);
  }

  lemma TextHasNoSlash(component: nat)
    ensures '/' !in Text(component)
  {
    DecimalShape(if component >= HARDENED then component - HARDENED else component);
  }

  lemma {:induction false} SplitOne(s: string)
    requires '/' !in s
    ensures Split(s) == [s]
  {
    if s != [] {
      SplitOne(s[1..]);
      assert [s[0]] + s[1..] == s;
    }
  }

  /** A slash and a piece without one add a piece. */
  lemma {:induction false} SplitSnoc(s: string, piece: string)
    requires '/' !in piece
    ensures Split(s + "/" + piece) == Split(s) + [piece]
  {
    var whole := s + "/" + piece;
    if s == [] {
      assert whole[1..] == piece;
      SplitOne(piece);
    } else {
      assert whole[1..] == s[1..] + "/" + piece;
      SplitSnoc(s[1..], piece);
    }
  }

  ghost predicate Words(path: Path)
  {
    forall i :: 0 <= i < |path| ==> path[i] <= MAX_WORD
  }

  ghost function Texts(path: Path): seq<string>
  {
    seq(|path|, i requires 0 <= i < |path| => Text(path[i]))
  }

  lemma {:induction false} SplitPrinted(path: Path)
    requires Words(path)
    ensures Split(Print(path)) == ["m"] + Texts(path)
  {
    if path == [] {
      SplitOne("m");
    } else {
      var init, last := path[..|path| - 1], path[|path| - 1];
      SplitPrinted(init);
      TextHasNoSlash(last);
      SplitSnoc(Print(init), Text(last));
      assert Texts(path) == Texts(init) + [Text(last)];
    }
  }

  lemma {:induction false} CollectAll(values: seq<Result<nat>>, path: Path)
    requires |values| == |path| && forall i :: 0 <= i < |path| ==> values[i] == Ok(path[i])
    ensures Collect(values, []) == Ok(path)
  {
    if path != [] {
      var init := path[..|path| - 1];
      CollectAll(values[..|path| - 1], init);
      assert init + [path[|path| - 1]] == path;
    }
  }

  /** A printed path parses back to itself exactly when it is not empty. */
  lemma RoundTrip(path: Path)
    requires Words(path)
    ensures Parse(Print(path)) == if path == [] then Err(EmptyPath) else Ok(path)
  {
    SplitPrinted(path);
    var texts := Texts(path);
    var values := Values(texts);
    forall i | 0 <= i < |path| ensures values[i] == Ok(path[i]) {
      TextParses(path[i]);
    }
    CollectAll(values, path);
    assert (["m"] + Texts(path))[1..] == Texts(path);
    TrimNothing("m");
  }

  lemma {:induction false} CollectWords(values: seq<Result<nat>>, path: Path)
    requires Words(path) && Collect(values, path).Ok?
    requires forall i :: 0 <= i < |values| && values[i].Ok? ==> values[i].value <= MAX_WORD
    ensures var p := Collect(values, path).value; Words(p) && |p| == |path| + |values|
  {
    if values != [] {
      CollectWords(values[..|values| - 1], path);
    }
  }

  lemma ComponentIsWord(text: string)
    ensures Component(text).Ok? ==> Component(text).value <= MAX_WORD
  {
  }

  lemma ComponentsAreWords(texts: seq<string>, path: Path)
    requires Words(path) && Components(texts, path).Ok?
    ensures var p := Components(texts, path).value; Words(p) && |p| == |path| + |texts|
  {
    var values := Values(texts);
    forall i | 0 <= i < |values| && values[i].Ok? ensures values[i].value <= MAX_WORD {
      ComponentIsWord(texts[i]);
    }
    CollectWords(values, path);
  }

  /** Whatever text a path was parsed from, its printed form parses to the same path. */
  lemma ParsedPathsReparse(text: string)
    requires Parse(text).Ok?
    ensures var path := Parse(text).value; path != [] && Words(path) && Parse(Print(path)) == Ok(path)
  {
    var pieces := Split(text);
    if TrimSpace(pieces[0]) == "m" {
      ComponentsAreWords(pieces[1..], []);
    } else {
      ComponentsAreWords(pieces, DEFAULT_ROOT);
    }
    RoundTrip(Parse(text).value);
  }

  // ---------------------------------------------------------------- white space

  ghost predicate Blank(s: string)
  {
    forall i :: 0 <= i < |s| ==> IsSpace(s[i])
  }

  lemma {:induction false} TrimLeftPad(l: string, s: string)
    requires Blank(l)
    ensures TrimLeft(l + s) == TrimLeft(s)
  {
    if l != [] {
      assert (l + s)[1..] == l[1..] + s;
      TrimLeftPad(l[1..], s);
    } else {
      assert l + s == s;
    }
  }

  lemma {:induction false} TrimRightPad(s: string, r: string)
    requires Blank(r)
    ensures TrimRight(s + r) == TrimRight(s)
  {
    if r != [] {
      assert (s + r)[..|s + r| - 1] == s + r[..|r| - 1];
      TrimRightPad(s, r[..|r| - 1]);
    } else {
      assert s + r == s;
    }
  }

  lemma {:induction false} TrimBoth(s: string, r: string)
    requires Blank(r)
    ensures TrimSpace(s + r) == TrimSpace(s)
    decreases |s|
  {
    if s == [] {
      assert s + r == r;
      TrimLeftPad(r, []);
      assert r + [] == r;
    } else if IsSpace(s[0]) {
      assert (s + r)[1..] == s[1..] + r;
      TrimBoth(s[1..], r);
    } else {
      TrimRightPad(s, r);
    }
  }

  /** White space around a component is ignored. */
  lemma PaddingIsIgnored(l: string, text: string, r: string)
    requires Blank(l) && Blank(r)
    ensures Component(l + text + r) == Component(text)
  {
    TrimLeftPad(l, text + r);
    assert l + text + r == l + (text + r);
    TrimBoth(text, r);
  }

  lemma {:induction false} TrimLeftQuote(s: string)
    ensures TrimLeft(s + "'") == TrimLeft(s) + "'" && TrimLeft(TrimLeft(s)) == TrimLeft(s)
  {
    if s != [] && IsSpace(s[0]) {
      assert (s + "'")[1..] == s[1..] + "'";
      TrimLeftQuote(s[1..]);
    }
  }

  /** A quote at the end hardens the component, white space before it or not. */
  lemma QuoteHardens(text: string, r: string)
    requires Blank(r)
    ensures Component(text + r + "'") == Value(TrimSpace(text), true)
  {
    TrimLeftQuote(text + r);
    TrimBoth(text, r);
    var left := TrimLeft(text + r);
    assert (left + "'")[..|left|] == left;
  }

  /** White space is what Unicode calls so: tab to carriage return, the space, the next line, the non-breaking space and
      the wider spaces. */
  lemma SpacesExact(c: char)
    ensures IsSpace(c) <==>
      var n := c as int;
      || 9 <= n <= 13 || n == 32 || n == 0x85 || n == 0xA0 || n == 0x1680 || 0x2000 <= n <= 0x200A
      || n == 0x2028 || n == 0x2029 || n == 0x202F || n == 0x205F || n == 0x3000
  {
  }

  // ---------------------------------------------------------------- absolute and relative paths

  /** A slash joins the pieces on either side. */
  lemma {:induction false} SplitJoin(s: string, text: string)
    ensures Split(s + "/" + text) == Split(s) + Split(text)
  {
    var whole := s + "/" + text;
    if s == [] {
      assert whole[1..] == text;
    } else {
      assert whole[1..] == s[1..] + "/" + text;
      SplitJoin(s[1..], text);
    }
  }

  lemma {:induction false} CollectConcat(xs: seq<Result<nat>>, ys: seq<Result<nat>>, path: Path, p: Path)
    requires Collect(xs, path) == Ok(p)
    ensures Collect(xs + ys, path) == Collect(ys, p)
    decreases |ys|
  {
    if ys == [] {
      assert xs + ys == xs;
    } else {
      CollectConcat(xs, ys[..|ys| - 1], path, p);
      assert (xs + ys)[..|xs + ys| - 1] == xs + ys[..|ys| - 1];
    }
  }

  /** A text appended to a printed path parses as its components appended to the path, errors included. */
  lemma AppendedText(path: Path, text: string)
    requires Words(path)
    ensures Parse(Print(path) + "/" + text) == Components(Split(text), path)
  {
    var texts := PrintedTexts(path);
    JoinedPieces(Print(path), texts, text);
    ConcatComponents(texts, Split(text), path);
    ParseAbsolute(Print(path) + "/" + text, texts + Split(text));
  }

  lemma PrintedTexts(path: Path) returns (texts: seq<string>)
    requires Words(path)
    ensures Split(Print(path)) == ["m"] + texts && Collect(Values(texts), []) == Ok(path)
  {
    texts := Texts(path);
    SplitPrinted(path);
    forall i | 0 <= i < |path| ensures Values(texts)[i] == Ok(path[i]) {
      TextParses(path[i]);
    }
    CollectAll(Values(texts), path);
  }

  lemma JoinedPieces(s: string, texts: seq<string>, text: string)
    requires Split(s) == ["m"] + texts
    ensures Split(s + "/" + text) == ["m"] + (texts + Split(text))
  {
    SplitJoin(s, text);
    assert (["m"] + texts) + Split(text) == ["m"] + (texts + Split(text));
  }

  lemma EachConcat(f: string -> Result<nat>, x: seq<string>, y: seq<string>)
    ensures Each(f, x + y) == Each(f, x) + Each(f, y)
  {
  }

  lemma ConcatComponents(texts: seq<string>, pieces: seq<string>, path: Path)
    requires Collect(Values(texts), []) == Ok(path)
    ensures Components(texts + pieces, []) == Components(pieces, path)
  {
    EachConcat(Component, texts, pieces);
    CollectConcat(Values(texts), Values(pieces), [], path);
  }

  lemma ParseAbsolute(text: string, pieces: seq<string>)
    requires pieces != [] && Split(text) == ["m"] + pieces
    ensures Parse(text) == Components(pieces, [])
  {
    TrimNothing("m");
    assert Split(text)[1..] == pieces;
  }

  lemma ParseRelative(text: string)
    requires TrimSpace(Split(text)[0]) != "" && TrimSpace(Split(text)[0]) != "m"
    ensures Parse(text) == Components(Split(text), [0x8000_002C, 0x8000_003C, 0x8000_0000, 0])
  {
    assert DEFAULT_ROOT == [0x8000_002C, 0x8000_003C, 0x8000_0000, 0];
  }

  /** A relative path is one below the default root 44'/60'/0'/0: it parses as the same text does after that root's
      text. */
  lemma RelativeIsBelowRoot(text: string)
    requires TrimSpace(Split(text)[0]) != "" && TrimSpace(Split(text)[0]) != "m"
    ensures Parse(text) == Parse(Print([0x8000_002C, 0x8000_003C, 0x8000_0000, 0]) + "/" + text)
  {
    ParseRelative(text);
    AppendedText([0x8000_002C, 0x8000_003C, 0x8000_0000, 0], text);
  }

  lemma PrintSnoc(path: Path, x: nat)
    ensures Print(path + [x]) == Print(path) + "/" + Text(x)
  {
    assert (path + [x])[..|path|] == path;
  }

  lemma RootText()
    ensures Print([0x8000_002C, 0x8000_003C, 0x8000_0000, 0]) == "m/44'/60'/0'/0"
  {
    RootTexts();
    PrintSnoc([], 0x8000_002C);
    PrintSnoc([0x8000_002C], 0x8000_003C);
    PrintSnoc([0x8000_002C, 0x8000_003C], 0x8000_0000);
    PrintSnoc([0x8000_002C, 0x8000_003C, 0x8000_0000], 0);
    assert [] + [0x8000_002C] == [0x8000_002C] && [0x8000_002C] + [0x8000_003C] == [0x8000_002C, 0x8000_003C];
    assert [0x8000_002C, 0x8000_003C] + [0x8000_0000] == [0x8000_002C, 0x8000_003C, 0x8000_0000];
    assert [0x8000_002C, 0x8000_003C, 0x8000_0000] + [0] == [0x8000_002C, 0x8000_003C, 0x8000_0000, 0];
    RootLiteral();
  }

  lemma RootLiteral()
    ensures "m" + "/" + "44'" + "/" + "60'" + "/" + "0'" + "/" + "0" == "m/44'/60'/0'/0"
  {
  }

  lemma RootTexts()
    ensures Text(0x8000_002C) == "44'" && Text(0x8000_003C) == "60'" && Text(0x8000_0000) == "0'" && Text(0) == "0"
  {
    assert Decimal(4) == "4";
    assert Decimal(6) == "6";
    assert Decimal(44) == Decimal(4) + "4";
    assert Decimal(60) == Decimal(6) + "0";
    assert Decimal(0) == "0";
  }

  /** A text whose first piece is blank is ambiguous, and the bare mark is empty. */
  lemma ParseErrors(text: string)
    ensures TrimSpace(Split(text)[0]) == "" ==> Parse(text) == Err(AmbiguousPath)
    ensures TrimSpace(Split(text)[0]) == "m" && '/' !in text ==> Parse(text) == Err(EmptyPath)
  {
    if '/' !in text {
      SplitOne(text);
    }
  }

  // ---------------------------------------------------------------- other notations for numbers

  /** Numbers may be given in binary, octal or hexadecimal by their prefixes. */
  lemma PrefixesParse(n: nat)
    ensures SetString("0b" + InBase(n, 2)) == Some(n)
    ensures SetString("0o" + InBase(n, 8)) == Some(n)
    ensures SetString("0x" + InBase(n, 16)) == Some(n)
  {
    PrefixParses(n, 2, 'b');
    PrefixParses(n, 8, 'o');
    PrefixParses(n, 16, 'x');
    assert ['0', 'b'] == "0b" && ['0', 'o'] == "0o" && ['0', 'x'] == "0x";
  }

  lemma PrefixParses(n: nat, b: nat, mark: char)
    requires (b == 2 && mark == 'b') || (b == 8 && mark == 'o') || (b == 16 && mark == 'x')
    ensures SetString(['0', mark] + InBase(n, b)) == Some(n)
  {
    ScanInBase(n, b, Scan(Digit, false, 0, 0));
    ScanMarked(InBase(n, b), b, mark, n);
  }

  lemma ScanMarked(digits: string, b: nat, mark: char, n: nat)
    requires (b == 2 && mark == 'b') || (b == 8 && mark == 'o') || (b == 16 && mark == 'x')
    requires var r := ScanAll(digits, b, Scan(Digit, false, 0, 0));
      r.Some? && r.value.prev == Digit && !r.value.misplaced && r.value.count > 0 && r.value.value == n
    ensures SetString(['0', mark] + digits) == Some(n)
  {
    var s := ['0', mark] + digits;
    assert s[2..] == digits && s[0] == '0' && s[1] == mark;
    assert s != "0" by {
      assert |s| >= 2;
    }
  }

  lemma {:induction false} ScanConcat(x: string, y: string, b: nat, st: Scan)
    ensures ScanAll(x + y, b, st) == match ScanAll(x, b, st) case Some(m) => ScanAll(y, b, m) case None => None
    decreases |y|
  {
    if y == [] {
      assert x + y == x;
    } else {
      ScanConcat(x, y[..|y| - 1], b, st);
      assert (x + y)[..|x + y| - 1] == x + y[..|y| - 1];
    }
  }

  ghost predicate DigitsOf(s: string, b: nat)
  {
    s != [] && forall i :: 0 <= i < |s| ==> s[i] != '_' && DigitValue(s[i]) < b
  }

  /** Digits are read alike whether an underscore or a digit comes before them. */
  lemma {:induction false} ScanDigits(y: string, b: nat, st: Scan, su: Scan)
    requires DigitsOf(y, b) && su == st.(prev := Underscore)
    ensures ScanAll(y, b, st).Some? && ScanAll(y, b, st).value.prev == Digit && ScanAll(y, b, su) == ScanAll(y, b, st)
    decreases |y|
  {
    if |y| == 1 {
      assert y[..0] == [];
    } else {
      ScanDigits(y[..|y| - 1], b, st, su);
    }
  }

  /** A single underscore between digits changes nothing. */
  lemma UnderscoreBetween(x: string, y: string, b: nat, st: Scan)
    requires DigitsOf(x, b) && DigitsOf(y, b)
    ensures ScanAll(x + "_" + y, b, st) == ScanAll(x + y, b, st)
  {
    ScanDigits(x, b, st, st.(prev := Underscore));
    var m := ScanAll(x, b, st).value;
    ScanConcat(x, y, b, st);
    ScanConcat(x + "_", y, b, st);
    assert (x + "_")[..|x|] == x && (x + "_")[|x|] == '_';
    ScanDigits(y, b, m, m.(prev := Underscore));
  }

  /** Anywhere else it is misplaced: after another, or before the first digit of a number without a prefix. */
  lemma UnderscoreMisplaced(x: string, b: nat, st: Scan)
    requires ScanAll(x, b, st).Some? && ScanAll(x, b, st).value.prev != Digit
    ensures ScanAll(x + "_", b, st).Some? && ScanAll(x + "_", b, st).value.misplaced
  {
    assert (x + "_")[..|x|] == x && (x + "_")[|x|] == '_';
  }

  /** A number may carry a sign. */
  lemma SignsParse(n: nat)
    ensures SetString("-" + Decimal(n)).Some? && SetString("-" + Decimal(n)).value == 0 - n
    ensures SetString("+" + Decimal(n)) == Some(n)
  {
    DecimalShape(n);
    DecimalParses(n);
    assert ("-" + Decimal(n))[1..] == Decimal(n) && ("+" + Decimal(n))[1..] == Decimal(n);
  }

  /** A negative component, and one past 32 bits or, hardened, past 31, is out of range. */
  lemma OutOfRangeExact(digits: string, hardened: bool)
    ensures Value(digits, hardened).Ok? <==>
      SetString(digits).Some? && 0 <= SetString(digits).value <= if hardened then 0x7FFF_FFFF else 0xFFFF_FFFF
  {
  }

  /** An underscore at the end and a sign without digits are refused. */
  lemma BadNumbers(s: string)
    ensures SetString(s + "_").None? && SetString("").None? && SetString("-").None? && SetString("+").None?
  {
    var t := s + "_";
    if |t| > 1 {
      UnderscoreEnds(if t[0] == '+' || t[0] == '-' then t[1..] else t);
    }
  }

  lemma UnderscoreEnds(t: string)
    requires t != [] && t[|t| - 1] == '_'
    ensures ScanNat(t).None?
  {
    forall b: nat, st: Scan, u: string | u != [] && u[|u| - 1] == '_'
      ensures var r := ScanAll(u, b, st); r.Some? ==> r.value.prev == Underscore
    {
    }
  }

  // ---------------------------------------------------------------- exactly which texts are numbers

  /** The value of a figure: 0 to 9, then a to f or A to F; 16 for any other character. */
  ghost function Figure(c: char): nat
  {
    var n := c as int;
    if 48 <= n <= 57 then n - 48 else if 97 <= n <= 102 then n - 87 else if 65 <= n <= 70 then n - 55 else 16
  }

  /** Figures of a base and underscores. */
  ghost predicate Figures(s: string, b: nat)
  {
    forall i :: 0 <= i < |s| ==> s[i] == '_' || Figure(s[i]) < b
  }

  /** An underscore follows another, or comes first where it may not. */
  ghost predicate Misplaced(s: string, led: bool, i: nat)
    requires i < |s|
  {
    s[i] == '_' && if i == 0 then !led else s[i - 1] == '_'
  }

  ghost predicate Doubled(s: string, led: bool)
  {
    exists i :: 0 <= i < |s| && Misplaced(s, led, i)
  }

  ghost predicate Underscores(s: string)
  {
    forall i :: 0 <= i < |s| ==> s[i] == '_'
  }

  /** What the figures are worth in a base, underscores left out. */
  ghost function Worth(s: string, b: nat): nat
  {
    if s == [] then 0
    else
      var init, last := s[..|s| - 1], s[|s| - 1];
      if last == '_' then Worth(init, b) else Worth(init, b) * b + Figure(last)
  }

  /** Figures of a base, at least one, in groups set apart by single underscores; a prefix may be set apart as well. */
  ghost predicate Numeral(s: string, b: nat, led: bool)
  {
    Figures(s, b) && !Underscores(s) && !Doubled(s, led) && s[|s| - 1] != '_'
  }

  lemma DoubledInit(s: string, led: bool)
    requires s != []
    ensures Doubled(s, led) <==> Doubled(s[..|s| - 1], led) || Misplaced(s, led, |s| - 1)
  {
    var init := s[..|s| - 1];
    if Doubled(init, led) {
      var i :| 0 <= i < |init| && Misplaced(init, led, i);
      assert Misplaced(s, led, i);
    }
    if Doubled(s, led) && !Misplaced(s, led, |init|) {
      var i :| 0 <= i < |s| && Misplaced(s, led, i);
      assert Misplaced(init, led, i);
    }
  }

  lemma {:induction false} ScanExact(s: string, b: nat, led: bool)
    requires b <= 16
    ensures var r := ScanAll(s, b, Scan(if led then Digit else Start, false, 0, 0));
      && (r.Some? <==> Figures(s, b))
      && (r.Some? ==>
            && r.value.value == Worth(s, b) && (r.value.count == 0 <==> Underscores(s))
            && (r.value.misplaced <==> Doubled(s, led))
            && r.value.prev == if s == [] then (if led then Digit else Start)
                               else if s[|s| - 1] == '_' then Underscore else Digit)
    decreases |s|
  {
    if s != [] {
      var init, last := s[..|s| - 1], s[|s| - 1];
      ScanExact(init, b, led);
      DoubledInit(s, led);
      assert s == init + [last];
      assert last != '_' ==> (DigitValue(last) < b <==> Figure(last) < b);
    }
  }

  lemma NumeralExact(s: string, b: nat, led: bool)
    requires b <= 16
    ensures var r := ScanAll(s, b, Scan(if led then Digit else Start, false, 0, 0));
      && (Numeral(s, b, led) <==>
            r.Some? && !r.value.misplaced && r.value.prev != Underscore && r.value.count != 0)
      && (r.Some? ==> r.value.value == Worth(s, b))
  {
    ScanExact(s, b, led);
  }

  /** The base is 2, 8 or 16 after 0b, 0o or 0x in either case, 8 after any other leading zero, and 10 otherwise; and
      how long the prefix is. */
  ghost function BaseOf(s: string): (nat, nat)
    ensures BaseOf(s).1 <= |s| && BaseOf(s).0 <= 16
  {
    if s == [] || s[0] != '0' then (10, 0)
    else if |s| == 1 then (8, 1)
    else if s[1] in "bB" then (2, 2)
    else if s[1] in "oO" then (8, 2)
    else if s[1] in "xX" then (16, 2)
    else (8, 1)
  }

  /** Which texts without a sign are numbers, and which number each is. */
  lemma NumbersExact(s: string)
    ensures s == "0" ==> ScanNat(s) == Some(0)
    ensures s != "0" ==>
      var (b, skip) := BaseOf(s);
      ScanNat(s) == if Numeral(s[skip..], b, skip > 0) then Some(Worth(s[skip..], b)) else None
  {
    var (b, skip) := BaseOf(s);
    NumeralExact(s[skip..], b, skip > 0);
    assert s[0..] == s;
  }

  /** One sign may come before a number, and nothing else. */
  lemma SignsExact(s: string)
    ensures SetString(s) ==
      if s == [] then None
      else if s[0] == '-' then match ScanNat(s[1..]) case Some(n) => Some(0 - n) case None => None
      else match ScanNat(if s[0] == '+' then s[1..] else s) case Some(n) => Some(n) case None => None
  {
  }
}
