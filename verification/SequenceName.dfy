/** Destination file names: path, base name, sequence text and extension. */
module SequenceName {

  import opened Collections

  const SEQUENCE_DIGITS: nat := 8
  const MAX_SEQUENCE_COUNT: nat := 99999999
  const TOTAL_FNAME_BUFSIZE: nat := 64
  const SEPARATOR: char := '/'

  function DigitChar(d: nat): (c: char)
    requires d < 10
  {
    '0' + d as char
  }

  /** The last `k` decimal digits of `count`, most significant first. */
  function Digits(count: nat, k: nat): (s: string)
    ensures |s| == k
  {
    if k == 0 then "" else Digits(count / 10, k - 1) + [DigitChar(count % 10)]
  }

  /** The number that a digit string denotes. */
  function Value(s: string): int {
    if s == "" then 0 else Value(s[..|s| - 1]) * 10 + (s[|s| - 1] as int - '0' as int)
  }

  function Pow10(k: nat): (r: nat)
    ensures r > 0
  {
    if k == 0 then 1 else 10 * Pow10(k - 1)
  }

  /** Zero padding loses nothing of a count that fits the digits. */
  lemma {:induction false} DigitsDenote(count: nat, k: nat)
    requires count < Pow10(k)
    ensures Value(Digits(count, k)) == count
  {
    if k > 0 {
      DigitsDenote(count / 10, k - 1);
      var s := Digits(count, k);
      assert s[..k - 1] == Digits(count / 10, k - 1);
    }
  }

  lemma DigitsInjective(c: nat, d: nat)
    requires c <= MAX_SEQUENCE_COUNT && d <= MAX_SEQUENCE_COUNT
    requires Digits(c, SEQUENCE_DIGITS) == Digits(d, SEQUENCE_DIGITS)
    ensures c == d
  {
    assert Pow10(4) == 10000 && Pow10(8) == 10000 * Pow10(4) by {
      assert Pow10(3) == 1000 && Pow10(2) == 100;
      assert Pow10(6) == 100 * Pow10(4) && Pow10(8) == 100 * Pow10(6);
    }
    DigitsDenote(c, SEQUENCE_DIGITS);
    DigitsDenote(d, SEQUENCE_DIGITS);
  }

  /** Write the digits of a count into a text buffer, least significant first. */
  method WriteSequence(buffer: array<char>, count: nat)
    requires buffer.Length > SEQUENCE_DIGITS
    modifies buffer
    ensures buffer[..SEQUENCE_DIGITS] == Digits(count, SEQUENCE_DIGITS)
    ensures buffer[SEQUENCE_DIGITS] == '\0'
    ensures buffer[SEQUENCE_DIGITS + 1..] == old(buffer[SEQUENCE_DIGITS + 1..])
  {
    var rest := count;
    var i := SEQUENCE_DIGITS;
    while i > 0
      invariant 0 <= i <= SEQUENCE_DIGITS
      invariant Digits(count, SEQUENCE_DIGITS) == Digits(rest, i) + buffer[i..SEQUENCE_DIGITS]
      invariant buffer[SEQUENCE_DIGITS + 1..] == old(buffer[SEQUENCE_DIGITS + 1..])
    {
      i := i - 1;
      ghost var tail := buffer[i + 1..SEQUENCE_DIGITS];
      buffer[i] := DigitChar(rest % 10);
      assert buffer[i..SEQUENCE_DIGITS] == [DigitChar(rest % 10)] + tail;
      assert Digits(rest, i + 1) + tail == Digits(rest / 10, i) + ([DigitChar(rest % 10)] + tail);
      rest := rest / 10;
    }
    assert buffer[0..SEQUENCE_DIGITS] == buffer[..SEQUENCE_DIGITS];
    buffer[SEQUENCE_DIGITS] := '\0';
  }

  /** The file name, if the path is not empty and the whole fits the name buffer. */
  function FileName(path: string, base: string, sequence: string, extension: string): (name: Option<string>)
    ensures name.Some? ==> 0 < |name.value| < TOTAL_FNAME_BUFSIZE
  {
    if path == "" then None
    else
      var name := Directory(path) + base + sequence + DotExtension(extension);
      if |name| < TOTAL_FNAME_BUFSIZE then Some(name) else None
  }

  function Directory(path: string): string
    requires path != ""
  {
    if path[|path| - 1] == SEPARATOR then path else path + [SEPARATOR]
  }

  function DotExtension(extension: string): string {
    if extension == "" then "" else if extension[0] == '.' then extension else "." + extension
  }

  /** The name is path, base, sequence and extension, with one separator after the path and one point
      before the extension, whether these are written in the table or not; without an extension there is
      no point. There is none for an empty path, or if it has 64 characters or more.
   */
  lemma NameIs(path: string, base: string, sequence: string, extension: string)
    requires path != "" && path[|path| - 1] != '/' && extension != "" && extension[0] != '.'
    ensures var name := path + "/" + base + sequence + "." + extension;
            var made := if |name| < 64 then Some(name) else None;
            && FileName(path, base, sequence, extension) == FileName(path + "/", base, sequence, extension) == made
            && FileName(path, base, sequence, "." + extension) == made
    ensures var name := path + "/" + base + sequence;
            FileName(path, base, sequence, "") == if |name| < 64 then Some(name) else None
    ensures FileName("", base, sequence, extension) == None
  {
    var front := path + "/" + base + sequence;
    assert front + "." + extension == front + ("." + extension);
    assert path + [SEPARATOR] == path + "/" && front + "" == front;
  }

  /** By-count names of one destination are the same exactly for the same count. */
  lemma CountNamesDistinct(path: string, base: string, extension: string, c: nat, d: nat)
    requires c <= MAX_SEQUENCE_COUNT && d <= MAX_SEQUENCE_COUNT
    requires FileName(path, base, Digits(c, SEQUENCE_DIGITS), extension).Some?
    ensures FileName(path, base, Digits(d, SEQUENCE_DIGITS), extension).Some?
    ensures FileName(path, base, Digits(c, SEQUENCE_DIGITS), extension) == FileName(path, base, Digits(d, SEQUENCE_DIGITS), extension) <==> c == d
  {
    var pre, ext := Directory(path) + base, DotExtension(extension);
    var a, b := pre + Digits(c, SEQUENCE_DIGITS) + ext, pre + Digits(d, SEQUENCE_DIGITS) + ext;
    if a == b {
      assert a[|pre|..|pre| + SEQUENCE_DIGITS] == Digits(c, SEQUENCE_DIGITS);
      assert b[|pre|..|pre| + SEQUENCE_DIGITS] == Digits(d, SEQUENCE_DIGITS);
      DigitsInjective(c, d);
    }
  }

  /** The count after a file was created: one more, or past the maximum the table's own. */
  function NextCount(count: nat, restart: nat): (next: nat)
    requires count <= MAX_SEQUENCE_COUNT && restart <= MAX_SEQUENCE_COUNT
    ensures next <= MAX_SEQUENCE_COUNT
  {
    if count + 1 > MAX_SEQUENCE_COUNT then restart else count + 1
  }

  function CountAfter(count: nat, restart: nat, files: nat): (c: nat)
    requires count <= MAX_SEQUENCE_COUNT && restart <= MAX_SEQUENCE_COUNT
    ensures c <= MAX_SEQUENCE_COUNT
  {
    if files == 0 then count else NextCount(CountAfter(count, restart, files - 1), restart)
  }

  lemma {:induction false} CountsUp(count: nat, restart: nat, files: nat)
    requires count + files <= MAX_SEQUENCE_COUNT && restart <= MAX_SEQUENCE_COUNT
    ensures CountAfter(count, restart, files) == count + files
  {
    if files > 0 {
      CountsUp(count, restart, files - 1);
    }
  }

  /** The file after the one with the largest count gets the table's count. */
  lemma CountRestarts(count: nat, restart: nat)
    requires count <= MAX_SEQUENCE_COUNT && restart <= MAX_SEQUENCE_COUNT
    ensures CountAfter(count, restart, MAX_SEQUENCE_COUNT - count + 1) == restart
  {
    CountsUp(count, restart, MAX_SEQUENCE_COUNT - count);
  }
}
