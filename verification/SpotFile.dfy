/** Saving the spot ring as dxspots.csv and reading it back (src/dxcluster.c, dxcluster_shutdown and
    dxcluster_init): fprintf with "%lld,%s,%s,%s,%s,%ld\n", fgets with 512 bytes, and sscanf with
    "%lld,%15[^,],%15[^,],%7[^,],%39[^,],%ld". */
module SpotFile {
  import opened DxSpot
  import SpotRing

  // ----- Decimal numbers -----

  function Digit(d: nat): char
    requires d < 10
  {
    '0' + d as char
  }

  predicate IsDigit(c: char) {
    '0' <= c <= '9'
  }

  /** Digits without a sign. */
  function Digits(n: nat): (s: string)
    ensures s != [] && forall k :: 0 <= k < |s| ==> IsDigit(s[k])
  {
    if n < 10 then [Digit(n)] else Digits(n / 10) + [Digit(n % 10)]
  }

  function FormatInt(n: int): string {
    if n < 0 then "-" + Digits(-n) else Digits(n)
  }

  /** The outcome of one conversion of sscanf. */
  datatype Scan<T> = Fail | Got(value: T, rest: string) {
    predicate IsFailure() {
      Fail?
    }

    function PropagateFailure<U>(): Scan<U>
      requires Fail?
    {
      Fail
    }

    function Extract(): (T, string)
      requires Got?
    {
      (value, rest)
    }
  }

  /** The digits at the front of `s`, read after those of the number `acc`. */
  function ScanDigits(acc: nat, s: string): Scan<nat>
    decreases |s|
  {
    if s != [] && IsDigit(s[0]) then ScanDigits(10 * acc + (s[0] - '0') as nat, s[1..]) else Got(acc, s)
  }

  predicate IsSpace(c: char) {
    c == ' ' || 9 <= c as int <= 13
  }

  function SkipSpace(s: string): string {
    if s != [] && IsSpace(s[0]) then SkipSpace(s[1..]) else s
  }

  function ScanNat(s: string): Scan<nat> {
    if s != [] && IsDigit(s[0]) then ScanDigits(0, s) else Fail
  }

  /** %lld and %ld: white space, perhaps a sign, at least one digit. */
  function ScanInt(s: string): Scan<int> {
    var t := SkipSpace(s);
    if t != [] && t[0] == '-' then
      var (n, rest) :- ScanNat(t[1..]);
      Got(-(n as int), rest)
    else
      var (n, rest) :- ScanNat(if t != [] && t[0] == '+' then t[1..] else t);
      Got(n, rest)
  }

  lemma ScanOneDigit(acc: nat, d: nat, tail: string)
    requires d < 10
    ensures ScanDigits(acc, [Digit(d)] + tail) == ScanDigits(10 * acc + d, tail)
  {
    assert ([Digit(d)] + tail)[1..] == tail;
  }

  lemma {:induction false} ScanDigitsInverts(n: nat, tail: string)
    ensures ScanDigits(0, Digits(n) + tail) == ScanDigits(n, tail)
  {
    if n < 10 {
      ScanOneDigit(0, n, tail);
    } else {
      assert Digits(n) + tail == Digits(n / 10) + ([Digit(n % 10)] + tail);
      ScanDigitsInverts(n / 10, [Digit(n % 10)] + tail);
      ScanOneDigit(n / 10, n % 10, tail);
    }
  }

  lemma ScanNatInverts(n: nat, tail: string)
    requires tail == [] || !IsDigit(tail[0])
    ensures ScanNat(Digits(n) + tail) == Got(n, tail)
  {
    ScanDigitsInverts(n, tail);
    assert (Digits(n) + tail)[0] == Digits(n)[0];
  }

  lemma ScanNegative(n: nat, tail: string)
    requires tail == [] || !IsDigit(tail[0])
    ensures ScanInt("-" + (Digits(n) + tail)) == Got(-(n as int), tail)
  {
    var digits := Digits(n) + tail;
    ScanNatInverts(n, tail);
    assert ("-" + digits)[1..] == digits;
  }

  lemma ScanPositive(n: nat, tail: string)
    requires tail == [] || !IsDigit(tail[0])
    ensures ScanInt(Digits(n) + tail) == Got(n, tail)
  {
    ScanNatInverts(n, tail);
    assert IsDigit((Digits(n) + tail)[0]);
  }

  /** A sign in front of a number, and white space in front of that, does not matter. */
  lemma ScanLoosely(n: nat, tail: string)
    requires tail == [] || !IsDigit(tail[0])
    ensures ScanInt("+" + (Digits(n) + tail)) == Got(n, tail)
    ensures ScanInt(" " + (Digits(n) + tail)) == Got(n, tail)
  {
    var digits := Digits(n) + tail;
    ScanPositive(n, tail);
    ScanNatInverts(n, tail);
    assert ("+" + digits)[1..] == digits && (" " + digits)[1..] == digits;
    assert SkipSpace(" " + digits) == SkipSpace(digits);
  }

  /** A printed number is read back, up to the character after it. */
  lemma ScanIntInverts(n: int, tail: string)
    requires tail == [] || !IsDigit(tail[0])
    ensures ScanInt(FormatInt(n) + tail) == Got(n, tail)
  {
    if n < 0 {
      ScanNegative(-n, tail);
      assert FormatInt(n) + tail == "-" + (Digits(-n) + tail);
    } else {
      ScanPositive(n, tail);
    }
  }

  // ----- Fields -----

  predicate CommaFree(s: string) {
    forall k :: 0 <= k < |s| ==> s[k] != ','
  }

  /** How many characters before the first comma, at most `width`. */
  function Span(s: string, width: nat): (n: nat)
    ensures n <= |s| && n <= width && CommaFree(s[..n])
    ensures n < |s| && n < width ==> s[n] == ','
  {
    if width == 0 || s == [] || s[0] == ',' then 0
    else
      var n := Span(s[1..], width - 1);
      assert s[..n + 1] == [s[0]] + s[1..][..n];
      n + 1
  }

  /** %<width>[^,] */
  function ScanField(s: string, width: nat): Scan<string> {
    var n := Span(s, width);
    if n == 0 then Fail else Got(s[..n], s[n..])
  }

  /** A comma of the format. */
  function ScanComma(s: string): Scan<char> {
    if s != [] && s[0] == ',' then Got(',', s[1..]) else Fail
  }

  /** A field with the comma before it. */
  function ScanNext(s: string, width: nat): Scan<string> {
    var (_, r) :- ScanComma(s);
    ScanField(r, width)
  }

  lemma {:induction false} SpanIs(field: string, tail: string, width: nat)
    requires CommaFree(field) && |field| <= width && tail != [] && tail[0] == ','
    ensures Span(field + tail, width) == |field|
  {
    if field == [] {
      assert field + tail == tail;
    } else {
      assert (field + tail)[1..] == field[1..] + tail;
      SpanIs(field[1..], tail, width - 1);
    }
  }

  lemma ScanNextInverts(field: string, tail: string, width: nat)
    requires field != [] && CommaFree(field) && |field| <= width && tail != [] && tail[0] == ','
    ensures ScanNext("," + field + tail, width) == Got(field, tail)
  {
    SpanIs(field, tail, width);
    assert ("," + field + tail)[1..] == field + tail;
  }

  // ----- Lines -----

  function FormatSpot(sp: Spot): string {
    FormatInt(sp.freqHz) + ("," + sp.dxCall + ("," + sp.spotter + ("," + sp.mode + ("," + sp.comment +
    ("," + (FormatInt(sp.when) + "\n"))))))
  }

  /** The last conversion may fail: the spot is accepted with a time of 0. */
  function ScanWhen(s: string): int {
    match ScanComma(s)
    case Fail => 0
    case Got(_, r) =>
      match ScanInt(r)
      case Fail => 0
      case Got(when, _) => when
  }

  function ParseLine(line: string): Scan<Spot> {
    var (freq, r0) :- ScanInt(line);
    var (dxCall, r1) :- ScanNext(r0, 15);
    var (spotter, r2) :- ScanNext(r1, 15);
    var (mode, r3) :- ScanNext(r2, 7);
    var (comment, r4) :- ScanNext(r3, 39);
    Got(Spot(freq, dxCall, spotter, mode, comment, ScanWhen(r4)), [])
  }

  /** The lengths of the character arrays in DX_SPOT. */
  predicate Fits(sp: Spot) {
    |sp.dxCall| <= 15 && |sp.spotter| <= 15 && |sp.mode| <= 7 && |sp.comment| <= 39
  }

  predicate Clean(field: string) {
    field != [] && CommaFree(field)
  }

  predicate Storable(sp: Spot) {
    Clean(sp.dxCall) && Clean(sp.spotter) && Clean(sp.mode) && Clean(sp.comment)
  }

  /** A line is scanned conversion by conversion. */
  lemma ParseChain(line: string, freq: int, dxCall: string, spotter: string, mode: string, comment: string,
                   t1: string, t2: string, t3: string, t4: string, t5: string)
    requires ScanInt(line) == Got(freq, t1) && ScanNext(t1, 15) == Got(dxCall, t2)
    requires ScanNext(t2, 15) == Got(spotter, t3) && ScanNext(t3, 7) == Got(mode, t4)
    requires ScanNext(t4, 39) == Got(comment, t5)
    ensures ParseLine(line) == Got(Spot(freq, dxCall, spotter, mode, comment, ScanWhen(t5)), [])
  {
  }

  lemma WhenInverts(when: int)
    ensures ScanWhen("," + (FormatInt(when) + "\n")) == when
  {
    var text := FormatInt(when) + "\n";
    assert ("," + text)[1..] == text;
    ScanIntInverts(when, "\n");
  }

  lemma ParseInverts(sp: Spot)
    requires Fits(sp) && Storable(sp)
    ensures ParseLine(FormatSpot(sp)) == Got(sp, [])
  {
    var t5 := "," + (FormatInt(sp.when) + "\n");
    var t4 := "," + sp.comment + t5;
    var t3 := "," + sp.mode + t4;
    var t2 := "," + sp.spotter + t3;
    var t1 := "," + sp.dxCall + t2;
    ScanIntInverts(sp.freqHz, t1);
    ScanNextInverts(sp.dxCall, t2, 15);
    ScanNextInverts(sp.spotter, t3, 15);
    ScanNextInverts(sp.mode, t4, 7);
    ScanNextInverts(sp.comment, t5, 39);
    WhenInverts(sp.when);
    ParseChain(FormatSpot(sp), sp.freqHz, sp.dxCall, sp.spotter, sp.mode, sp.comment, t1, t2, t3, t4, t5);
  }

  lemma ScannedIsClean(s: string, width: nat)
    requires ScanNext(s, width).Got?
    ensures Clean(ScanNext(s, width).value) && |ScanNext(s, width).value| <= width
  {
  }

  /** What is accepted has four clean fields, which their arrays can hold. */
  lemma ParsedIsStorable(line: string)
    ensures ParseLine(line).Got? ==> Storable(ParseLine(line).value) && Fits(ParseLine(line).value)
  {
    if ParseLine(line).Got? {
      var r0 := ScanInt(line).rest;
      var r1 := ScanNext(r0, 15).rest;
      var r2 := ScanNext(r1, 15).rest;
      var r3 := ScanNext(r2, 7).rest;
      ScannedIsClean(r0, 15);
      ScannedIsClean(r1, 15);
      ScannedIsClean(r2, 7);
      ScannedIsClean(r3, 39);
    }
  }

  /** A saved spot is read back exactly when its four text fields are not empty and have no comma. */
  lemma LineRoundTrip(sp: Spot)
    requires Fits(sp)
    ensures ParseLine(FormatSpot(sp)) == Got(sp, []) <==> Storable(sp)
  {
    if Storable(sp) {
      ParseInverts(sp);
    } else {
      ParsedIsStorable(FormatSpot(sp));
    }
  }

  // ----- The whole file -----

  const LINE_BUFFER: nat := 512

  /** How much fgets takes: up to and including the next line feed, at most `limit` characters. */
  function LineEnd(text: string, limit: nat): (n: nat)
    requires text != [] && limit > 0
    ensures 1 <= n <= |text| && n <= limit
    ensures forall k :: 0 <= k < n - 1 ==> text[k] != '\n'
    ensures n == limit || n == |text| || text[n - 1] == '\n'
  {
    if limit == 1 || text[0] == '\n' || |text| == 1 then 1
    else
      var n := LineEnd(text[1..], limit - 1);
      assert forall k :: 1 <= k < n ==> text[k] == text[1..][k - 1];
      1 + n
  }

  function ParsedSpots(line: string): seq<Spot> {
    match ParseLine(line)
    case Fail => []
    case Got(sp, _) => [sp]
  }

  /** The spots that are read from a file. */
  function ReadAll(text: string): seq<Spot>
    decreases |text|
  {
    if text == [] then []
    else
      var n := LineEnd(text, LINE_BUFFER - 1);
      ParsedSpots(text[..n]) + ReadAll(text[n..])
  }

  /** The file that is written. */
  function WriteAll(spots: seq<Spot>): string {
    if spots == [] then "" else WriteAll(spots[..|spots| - 1]) + FormatSpot(spots[|spots| - 1])
  }

  predicate OneLine(s: string) {
    forall k :: 0 <= k < |s| ==> s[k] != '\n'
  }

  predicate InLongLong(n: int) {
    -0x8000_0000_0000_0000 <= n < 0x8000_0000_0000_0000
  }

  /** What DX_SPOT can hold, and the worker puts into it: the text comes from lines, so it has no line feed. */
  predicate Received(sp: Spot) {
    && Fits(sp) && InLongLong(sp.freqHz) && InLongLong(sp.when)
    && OneLine(sp.dxCall) && OneLine(sp.spotter) && OneLine(sp.mode) && OneLine(sp.comment)
  }

  lemma {:induction false} DigitsLength(n: nat, k: nat)
    requires k > 0 && n < Power10(k)
    ensures |Digits(n)| <= k
  {
    if n >= 10 {
      DigitsLength(n / 10, k - 1);
    }
  }

  ghost function Power10(k: nat): nat {
    if k == 0 then 1 else 10 * Power10(k - 1)
  }

  lemma LongLongLength(n: int)
    requires InLongLong(n)
    ensures |FormatInt(n)| <= 20
  {
    assert Power10(5) == 100_000;
    assert Power10(10) == 100_000 * Power10(5);
    assert Power10(15) == 100_000 * Power10(10);
    assert Power10(19) == 10_000 * Power10(15);
    DigitsLength(if n < 0 then -n else n, 19);
  }

  lemma {:induction false} LineEndIs(body: string, rest: string, limit: nat)
    requires OneLine(body) && |body| < limit
    ensures LineEnd(body + "\n" + rest, limit) == |body| + 1
  {
    var text := body + "\n" + rest;
    if body != [] {
      assert text[1..] == body[1..] + "\n" + rest;
      LineEndIs(body[1..], rest, limit - 1);
    }
  }

  function Body(sp: Spot): string {
    FormatInt(sp.freqHz) + "," + sp.dxCall + "," + sp.spotter + "," + sp.mode + "," + sp.comment + ","
    + FormatInt(sp.when)
  }

  lemma BodyIsShortLine(sp: Spot)
    requires Received(sp)
    ensures FormatSpot(sp) == Body(sp) + "\n" && OneLine(Body(sp)) && |Body(sp)| < LINE_BUFFER - 1
  {
    LongLongLength(sp.freqHz);
    LongLongLength(sp.when);
  }

  lemma Assoc<T>(a: seq<T>, b: seq<T>, c: seq<T>)
    ensures (a + b) + c == a + (b + c)
  {
  }

  lemma Ends(a: string)
    ensures "" + a == a + "" == a
  {
  }

  lemma {:induction false} WriteAllFront(sp: Spot, spots: seq<Spot>)
    ensures WriteAll([sp] + spots) == FormatSpot(sp) + WriteAll(spots)
    decreases |spots|
  {
    var all := [sp] + spots;
    if spots == [] {
      assert all[..0] == [];
      Ends(FormatSpot(sp));
    } else {
      var init, last := spots[..|spots| - 1], spots[|spots| - 1];
      assert all[..|all| - 1] == [sp] + init;
      WriteAllFront(sp, init);
      Assoc(FormatSpot(sp), WriteAll(init), FormatSpot(last));
    }
  }

  /** A line that is too long for the buffer is read in pieces of 511 characters, each as a line of its own. */
  lemma LongLineInPieces(text: string)
    requires |text| > 511 && forall k :: 0 <= k < 511 ==> text[k] != '\n'
    ensures ReadAll(text) == ParsedSpots(text[..511]) + ReadAll(text[511..])
  {
    assert LineEnd(text, 511) == 511;
  }

  /** The spots that survive. */
  function StorableOf(spots: seq<Spot>): seq<Spot> {
    if spots == [] then []
    else (if Storable(spots[0]) then [spots[0]] else []) + StorableOf(spots[1..])
  }

  /** Each line is read by itself, whatever the lines around it are. */
  lemma ReadFirst(sp: Spot, rest: string)
    requires Received(sp)
    ensures ReadAll(FormatSpot(sp) + rest) == ParsedSpots(FormatSpot(sp)) + ReadAll(rest)
  {
    BodyIsShortLine(sp);
    LineEndIs(Body(sp), rest, LINE_BUFFER - 1);
    var text, n := FormatSpot(sp) + rest, |FormatSpot(sp)|;
    assert text == Body(sp) + "\n" + rest;
    assert text[..n] == FormatSpot(sp) && text[n..] == rest;
  }

  predicate FieldsCommaFree(sp: Spot) {
    CommaFree(sp.dxCall) && CommaFree(sp.spotter) && CommaFree(sp.mode) && CommaFree(sp.comment)
  }

  /** An empty field stops the scan, so that the line is skipped. */
  lemma EmptyFieldFails(sp: Spot)
    requires Fits(sp) && FieldsCommaFree(sp) && !Storable(sp)
    ensures ParseLine(FormatSpot(sp)).Fail?
  {
    var t5 := "," + (FormatInt(sp.when) + "\n");
    var t4 := "," + sp.comment + t5;
    var t3 := "," + sp.mode + t4;
    var t2 := "," + sp.spotter + t3;
    var t1 := "," + sp.dxCall + t2;
    ScanIntInverts(sp.freqHz, t1);
    ScanNextOf(sp.dxCall, t2, 15);
    ScanNextOf(sp.spotter, t3, 15);
    ScanNextOf(sp.mode, t4, 7);
    ScanNextOf(sp.comment, t5, 39);
    ParseFails(FormatSpot(sp), sp, t1, t2, t3, t4);
  }

  /** A comma-free field is scanned unless it is empty. */
  lemma ScanNextOf(field: string, tail: string, width: nat)
    requires CommaFree(field) && |field| <= width && tail != [] && tail[0] == ','
    ensures ScanNext("," + field + tail, width) == if field == [] then Fail else Got(field, tail)
  {
    if field == [] {
      var text := "," + field + tail;
      assert text[1..] == tail;
    } else {
      ScanNextInverts(field, tail, width);
    }
  }

  lemma ParseFails(line: string, sp: Spot, t1: string, t2: string, t3: string, t4: string)
    requires ScanInt(line) == Got(sp.freqHz, t1)
    requires ScanNext(t1, 15) == (if sp.dxCall == [] then Fail else Got(sp.dxCall, t2))
    requires ScanNext(t2, 15) == (if sp.spotter == [] then Fail else Got(sp.spotter, t3))
    requires ScanNext(t3, 7) == (if sp.mode == [] then Fail else Got(sp.mode, t4))
    requires sp.comment == [] ==> ScanNext(t4, 39).Fail?
    requires sp.dxCall == [] || sp.spotter == [] || sp.mode == [] || sp.comment == []
    ensures ParseLine(line).Fail?
  {
  }

  /** What each line gives when it is read back, in order. */
  function Reread(spots: seq<Spot>): (r: seq<Spot>)
    ensures |r| <= |spots|
  {
    if spots == [] then [] else ParsedSpots(FormatSpot(spots[0])) + Reread(spots[1..])
  }

  lemma {:induction false} ReadsLineByLine(spots: seq<Spot>)
    requires forall i :: 0 <= i < |spots| ==> Received(spots[i])
    ensures ReadAll(WriteAll(spots)) == Reread(spots)
  {
    if spots != [] {
      var sp := spots[0];
      assert spots == [sp] + spots[1..];
      WriteAllFront(sp, spots[1..]);
      ReadFirst(sp, WriteAll(spots[1..]));
      ReadsLineByLine(spots[1..]);
    }
  }

  /** A line gives the spot that was saved exactly when this spot is storable. */
  lemma LineGives(sp: Spot)
    requires Fits(sp)
    ensures ParsedSpots(FormatSpot(sp)) == [sp] <==> Storable(sp)
  {
    LineRoundTrip(sp);
    ParsedIsStorable(FormatSpot(sp));
  }

  lemma RereadStep(spots: seq<Spot>)
    requires spots != []
    ensures Reread(spots) == spots <==>
            ParsedSpots(FormatSpot(spots[0])) == [spots[0]] && Reread(spots[1..]) == spots[1..]
  {
    FrontMatches(ParsedSpots(FormatSpot(spots[0])), Reread(spots[1..]), spots);
  }

  lemma FrontMatches(first: seq<Spot>, rest: seq<Spot>, spots: seq<Spot>)
    requires spots != [] && |first| <= 1 && |rest| < |spots|
    ensures first + rest == spots <==> first == [spots[0]] && rest == spots[1..]
  {
    var all := first + rest;
    assert spots == [spots[0]] + spots[1..];
    if all == spots {
      assert |first| == 1 && first[0] == all[0];
      assert rest == all[1..];
    }
  }

  lemma {:induction false} RereadIff(spots: seq<Spot>)
    requires forall i :: 0 <= i < |spots| ==> Fits(spots[i])
    ensures Reread(spots) == spots <==> forall i :: 0 <= i < |spots| ==> Storable(spots[i])
  {
    if spots != [] {
      RereadIff(spots[1..]);
      RereadStep(spots);
      LineGives(spots[0]);
      assert forall i :: 1 <= i < |spots| ==> spots[i] == spots[1..][i - 1];
    }
  }

  lemma {:induction false} RereadCommaFree(spots: seq<Spot>)
    requires forall i :: 0 <= i < |spots| ==> Fits(spots[i]) && FieldsCommaFree(spots[i])
    ensures Reread(spots) == StorableOf(spots)
  {
    if spots != [] {
      RereadCommaFree(spots[1..]);
      if Storable(spots[0]) {
        ParseInverts(spots[0]);
      } else {
        EmptyFieldFails(spots[0]);
      }
    }
  }

  /** Round trip, for all that the worker can have received: each spot comes back as its own line is read; all come
      back unchanged exactly when each has four non-empty comma-free text fields; and if only no field has a comma,
      those with four non-empty fields come back, in order. */
  lemma FileRoundTrip(spots: seq<Spot>)
    requires forall i :: 0 <= i < |spots| ==> Received(spots[i])
    ensures ReadAll(WriteAll(spots)) == Reread(spots)
    ensures ReadAll(WriteAll(spots)) == spots <==> forall i :: 0 <= i < |spots| ==> Storable(spots[i])
    ensures (forall i :: 0 <= i < |spots| ==> FieldsCommaFree(spots[i])) ==>
              ReadAll(WriteAll(spots)) == StorableOf(spots)
  {
    ReadsLineByLine(spots);
    RereadIff(spots);
    if forall i :: 0 <= i < |spots| ==> FieldsCommaFree(spots[i]) {
      RereadCommaFree(spots);
    }
  }

  /** What a ring holds after the program was stopped and started again. */
  lemma SaveThenLoad(history: seq<Spot>)
    requires forall i :: 0 <= i < |history| ==> Received(history[i])
    ensures var before := SpotRing.OldestFirst(history);
            var after := SpotRing.OldestFirst(ReadAll(WriteAll(before)));
            && after == Reread(before)
            && (after == before <==> forall i :: 0 <= i < |before| ==> Storable(before[i]))
            && ((forall i :: 0 <= i < |before| ==> FieldsCommaFree(before[i])) ==> after == StorableOf(before))
  {
    FileRoundTrip(SpotRing.OldestFirst(history));
  }

  /** A comment is cut at its first comma, and what follows it is taken for the time. */
  lemma CommaInComment(sp: Spot, front: string, back: string)
    requires Fits(sp) && Clean(sp.dxCall) && Clean(sp.spotter) && Clean(sp.mode)
    requires Clean(front) && sp.comment == front + ("," + back)
    ensures ParsedSpots(FormatSpot(sp))
         == [sp.(comment := front, when := ScanWhen("," + (back + ("," + (FormatInt(sp.when) + "\n")))))]
  {
    var t5 := "," + (back + ("," + (FormatInt(sp.when) + "\n")));
    var t4 := "," + front + t5;
    var t3 := "," + sp.mode + t4;
    var t2 := "," + sp.spotter + t3;
    var t1 := "," + sp.dxCall + t2;
    assert "," + sp.comment + ("," + (FormatInt(sp.when) + "\n")) == t4;
    ScanIntInverts(sp.freqHz, t1);
    ScanNextInverts(sp.dxCall, t2, 15);
    ScanNextInverts(sp.spotter, t3, 15);
    ScanNextInverts(sp.mode, t4, 7);
    ScanNextInverts(front, t5, 39);
  }

  /** For instance "CQ, up 5" comes back as "CQ", at the time 0. */
  lemma CommaExample(sp: Spot)
    requires Fits(sp) && Clean(sp.dxCall) && Clean(sp.spotter) && Clean(sp.mode) && sp.comment == "CQ, up 5"
    ensures ParsedSpots(FormatSpot(sp)) == [sp.(comment := "CQ", when := 0)]
  {
    CommaInComment(sp, "CQ", " up 5");
    var rest := " up 5" + ("," + (FormatInt(sp.when) + "\n"));
    assert ("," + rest)[1..] == rest && rest[1..][0] == 'u';
    assert SkipSpace(rest) == rest[1..];
  }

  // ----- The loops -----

  lemma WriteOneMore(spots: seq<Spot>, i: nat)
    requires i < |spots|
    ensures WriteAll(spots[..i + 1]) == WriteAll(spots[..i]) + FormatSpot(spots[i])
  {
    assert spots[..i + 1][..i] == spots[..i];
  }

  /** One line of the file, for the i-th oldest spot. */
  method SaveLine(r: SpotRing.Ring, idx: nat, ghost i: nat) returns (line: string, next: nat)
    requires r.Valid() && i < r.count && idx == SpotRing.Slot(r.head, r.count - 1 - i)
    ensures line == FormatSpot(SpotRing.OldestFirst(r.history)[i])
    ensures i + 1 < r.count ==> next == SpotRing.Slot(r.head, r.count - 2 - i)
  {
    var sp := r.ring[idx];
    assert sp == SpotRing.NewestFirst(r.history)[r.count - 1 - i];
    line := FormatSpot(sp);
    next := SpotRing.Forward(idx);
  }

  /** The last part of dxcluster_shutdown. */
  method Save(r: SpotRing.Ring) returns (text: string)
    requires r.Valid()
    ensures text == WriteAll(SpotRing.OldestFirst(r.history))
  {
    var idx := SpotRing.Back(r.head, r.count);
    text := "";
    ghost var spots := SpotRing.OldestFirst(r.history);
    for i := 0 to r.count
      invariant i < r.count ==> idx == SpotRing.Slot(r.head, r.count - 1 - i)
      invariant text == WriteAll(spots[..i])
    {
      var line;
      line, idx := SaveLine(r, idx, i);
      WriteOneMore(spots, i);
      text := text + line;
    }
    assert spots[..r.count] == spots;
  }

  method LoadLine(r: SpotRing.Ring, line: string)
    requires r.Valid()
    modifies r, r.ring
    ensures r.Valid() && r.history == old(r.history) + ParsedSpots(line)
  {
    match ParseLine(line) {
      case Fail =>
      case Got(sp, _) => r.Push(sp);
    }
  }

  /** One fgets. */
  method LoadNext(r: SpotRing.Ring, text: string) returns (rest: string, ghost spots: seq<Spot>)
    requires r.Valid() && text != []
    modifies r, r.ring
    ensures r.Valid() && r.history == old(r.history) + spots
    ensures ReadAll(text) == spots + ReadAll(rest) && |rest| < |text|
  {
    var n := LineEnd(text, LINE_BUFFER - 1);
    spots := ParsedSpots(text[..n]);
    LoadLine(r, text[..n]);
    rest := text[n..];
  }

  /** The first part of dxcluster_init. */
  method Load(r: SpotRing.Ring, text: string)
    requires r.Valid()
    modifies r, r.ring
    ensures r.Valid() && r.history == old(r.history) + ReadAll(text)
  {
    var rest := text;
    ghost var before, done, todo := r.history, [], ReadAll(text);
    while rest != []
      invariant r.Valid()
      invariant r.history == before + done
      invariant done + todo == ReadAll(text) && todo == ReadAll(rest)
      decreases |rest|
    {
      ghost var spots;
      rest, spots := LoadNext(r, rest);
      todo := ReadAll(rest);
      Assoc(before, done, spots);
      Assoc(done, spots, todo);
      done := done + spots;
    }
  }
}