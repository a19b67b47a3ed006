/** The flag by which the parent of a death test tells its child what to run: how it is printed,
    split and parsed. */
module DeathTestFlag {
  import opened Basics
  import opened Digits
  import opened Splitting

  /** SplitString: the fields between the delimiters. */
  method SplitString(str: string, delimiter: char) returns (dest: seq<string>)
    ensures dest == Fields(str, delimiter)
  {
    dest := [];
    var pos := 0;
    ghost var goal := Fields(str, delimiter);
    assert str[0..] == str;
    while true
      invariant 0 <= pos <= |str|
      invariant dest + Fields(str[pos..], delimiter) == goal
      decreases |str| - pos
    {
      var colon := Find(str, delimiter, pos);
      if colon == |str| {
        dest := dest + [str[pos..]];
        break;
      }
      NextField(dest, str, pos, colon, delimiter);
      dest := dest + [str[pos..colon]];
      pos := colon + 1;
    }
  }

  /** The first delimiter from pos on, or the end of the text. */
  method Find(str: string, delimiter: char, pos: nat) returns (colon: nat)
    requires pos <= |str|
    ensures pos <= colon <= |str| && colon - pos == |Before(str[pos..], delimiter)|
    ensures colon == |str| ==> Fields(str[pos..], delimiter) == [str[pos..]]
  {
    colon := pos + |Before(str[pos..], delimiter)|;
    if colon == |str| {
      LastField(str[pos..], delimiter);
    }
  }

  lemma NextField(dest: seq<string>, str: string, pos: nat, colon: nat, c: char)
    requires pos <= colon < |str| && colon - pos == |Before(str[pos..], c)|
    ensures (dest + [str[pos..colon]]) + Fields(str[colon + 1..], c) == dest + Fields(str[pos..], c)
  {
    var field, later := str[pos..colon], Fields(str[colon + 1..], c);
    assert str[pos..][colon - pos + 1..] == str[colon + 1..];
    assert Before(str[pos..], c) == field;
    assert Fields(str[pos..], c) == [field] + later;
    assert (dest + [field]) + later == dest + ([field] + later);
  }

  const ULL_RANGE: nat := 0x1_0000_0000_0000_0000
  const INT_MAX: nat := 0x7FFF_FFFF

  /** How many digits a text starts with. */
  function LeadingDigits(s: string): (n: nat)
    ensures n <= |s| && AllDigits(s[..n]) && (n < |s| ==> !IsDigit(s[n]))
  {
    if s == "" || !IsDigit(s[0]) then 0
    else
      assert s[..1 + LeadingDigits(s[1..])] == [s[0]] + s[1..][..LeadingDigits(s[1..])];
      1 + LeadingDigits(s[1..])
  }

  /** A cast of an unsigned long long to int: the low 32 bits, in two's complement. */
  function ToInt(v: nat): (i: int)
    ensures -0x8000_0000 <= i <= INT_MAX
  {
    var low := v % 0x1_0000_0000;
    if low <= INT_MAX then low else low - 0x1_0000_0000
  }

  /** A cast of an int to unsigned long long. */
  function ToUll(i: int): nat
    requires -0x8000_0000 <= i <= INT_MAX
  {
    if i >= 0 then i else i + ULL_RANGE
  }

  /** ParseNaturalNumber for int: strtoull on the leading digits, which must be all there is up
      to a NUL and fit, and then a cast that must lose nothing. */
  function ParseNaturalNumber(str: string): Option<int> {
    if str == "" || !IsDigit(str[0]) then None
    else
      var s := CText(str, '\0');
      var n := LeadingDigits(s);
      var v := DecNumber(s[..n]);
      if n == |s| && v < ULL_RANGE && ToUll(ToInt(v)) == v then Some(ToInt(v)) else None
  }

  lemma CastsBack(v: nat)
    requires v < ULL_RANGE
    ensures ToUll(ToInt(v)) == v <==> v <= INT_MAX || v >= ULL_RANGE - 0x8000_0000
    ensures v <= INT_MAX ==> ToInt(v) == v
    ensures v >= ULL_RANGE - 0x8000_0000 ==> ToInt(v) == v - ULL_RANGE
  {
  }

  lemma LeadingDigitsIff(s: string)
    ensures LeadingDigits(s) == |s| <==> AllDigits(s)
  {
    assert s[..|s|] == s;
  }

  lemma ParsesDigits(str: string, s: string)
    requires s == CText(str, '\0') && s != "" && AllDigits(s)
    ensures var v := DecNumber(s);
      ParseNaturalNumber(str) == if v < ULL_RANGE && ToUll(ToInt(v)) == v then Some(ToInt(v)) else None
  {
    LeadingDigitsIff(s);
    assert s[..|s|] == s;
    assert IsDigit(s[0]) && s[0] == str[0];
  }

  lemma ParsesOnlyDigits(str: string, s: string)
    requires s == CText(str, '\0') && !(s != "" && AllDigits(s))
    ensures ParseNaturalNumber(str).None?
  {
    LeadingDigitsIff(s);
    assert str != "" && IsDigit(str[0]) ==> s != "";
  }

  /** What ParseNaturalNumber accepts, up to a NUL: digits whose value fits an int, and also
      digits whose value is less than 2^31 below 2^64, which come out negative. */
  lemma ParsesExactly(str: string)
    ensures var s, r := CText(str, '\0'), ParseNaturalNumber(str);
      && (r.Some? <==> s != "" && AllDigits(s) &&
                       (DecNumber(s) <= INT_MAX || ULL_RANGE - 0x8000_0000 <= DecNumber(s) < ULL_RANGE))
      && (r.Some? ==> r.value == DecNumber(s) - if DecNumber(s) <= INT_MAX then 0 else ULL_RANGE)
  {
    var s := CText(str, '\0');
    if s != "" && AllDigits(s) {
      ParsesDigits(str, s);
      if DecNumber(s) < ULL_RANGE {
        CastsBack(DecNumber(s));
      }
    } else {
      ParsesOnlyDigits(str, s);
    }
  }

  // ---------- The flag ----------

  /** The flag, its absence, or an abort because it is malformed. */
  datatype Parsed = NoFlag | Abort | Flag(file: string, line: int, index: int, writeFd: int)

  method ParseInternalRunDeathTestFlag(flag: string) returns (parsed: Parsed)
    ensures parsed == ParsedFlag(flag)
  {
    if flag == "" {
      return NoFlag;
    }
    var fields := SplitString(CText(flag, '\0'), '|');
    if |fields| != 4 {
      return Abort;
    }
    var line, index, writeFd :=
      ParseNaturalNumber(fields[1]), ParseNaturalNumber(fields[2]), ParseNaturalNumber(fields[3]);
    if line.None? || index.None? || writeFd.None? {
      return Abort;
    }
    return Flag(fields[0], line.value, index.value, writeFd.value);
  }

  function ParsedFlag(flag: string): Parsed {
    var fields := Fields(CText(flag, '\0'), '|');
    if flag == "" then NoFlag
    else if |fields| == 4 && ParseNaturalNumber(fields[1]).Some? && ParseNaturalNumber(fields[2]).Some? &&
            ParseNaturalNumber(fields[3]).Some?
    then Flag(fields[0], ParseNaturalNumber(fields[1]).value, ParseNaturalNumber(fields[2]).value,
              ParseNaturalNumber(fields[3]).value)
    else Abort
  }

  function PrintedFlag(file: string, line: nat, index: nat, writeFd: nat): string {
    file + (['|'] + (DecText(line) + (['|'] + (DecText(index) + (['|'] + DecText(writeFd))))))
  }

  /** Bars stand between the four values. */
  lemma PrintedExample()
    ensures PrintedFlag("a.cc", 12, 0, 5) == "a.cc|12|0|5"
  {
    assert DecText(12) == "12" && DecText(0) == "0" && DecText(5) == "5";
  }

  lemma NumberBack(n: nat)
    requires n <= INT_MAX
    ensures ParseNaturalNumber(DecText(n)) == Some(n) && '|' !in DecText(n) && '\0' !in DecText(n)
  {
    DecReadsBack(n);
    CTextIs(DecText(n), DecText(n), '\0');
    ParsesExactly(DecText(n));
  }

  lemma PrintedIsJoined(file: string, line: nat, index: nat, writeFd: nat)
    ensures PrintedFlag(file, line, index, writeFd)
            == Joined([file, DecText(line), DecText(index), DecText(writeFd)], '|')
  {
    var a, b, c := DecText(line), DecText(index), DecText(writeFd);
    JoinedCons(b, [c], '|');
    JoinedCons(a, [b] + [c], '|');
    JoinedCons(file, [a] + ([b] + [c]), '|');
    assert [file, a, b, c] == [file] + ([a] + ([b] + [c]));
  }

  /** A flag with a NUL in the file name is cut there, and what is left names another file. */
  lemma CutFlag(file: string, flag: string)
    requires '\0' in file && file <= flag
    ensures ParsedFlag(flag).Flag? ==> ParsedFlag(flag).file != file
  {
    var s := CText(flag, '\0');
    FieldsJoin(s, '|');
    CutShorter(file, flag);
  }

  lemma CutShorter(file: string, flag: string)
    requires '\0' in file && file <= flag
    ensures |CText(flag, '\0')| < |file|
  {
    var i :| 0 <= i < |file| && file[i] == '\0';
    assert flag[i] == '\0';
  }

  /** The child reads the four values that the parent printed, exactly when the file name has no
      bar in it; a C string has no NUL. */
  lemma FlagReadsBack(file: string, line: nat, index: nat, writeFd: nat)
    requires line <= INT_MAX && index <= INT_MAX && writeFd <= INT_MAX
    ensures ParsedFlag(PrintedFlag(file, line, index, writeFd)) == Flag(file, line, index, writeFd)
            <==> '|' !in file && '\0' !in file
  {
    var fields := [file, DecText(line), DecText(index), DecText(writeFd)];
    var flag := PrintedFlag(file, line, index, writeFd);
    PrintedIsJoined(file, line, index, writeFd);
    NumberBack(line);
    NumberBack(index);
    NumberBack(writeFd);
    if '\0' in file {
      CutFlag(file, flag);
    } else {
      CTextIs(flag, flag, '\0');
      if '|' !in file {
        JoinedFields(fields, '|');
      } else {
        FieldsJoin(flag, '|');
      }
    }
  }
}
