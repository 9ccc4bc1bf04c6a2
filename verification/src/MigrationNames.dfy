/**
 Migration file names: the parser shared by the migrators and the name Down asks for.
 */
module MigrationNames {
  import opened Wrappers
  import opened Decimal

  const VERSION_LIMIT: nat := 0x1_0000_0000_0000_0000

  /** What follows the last slash. */
  function BaseName(path: string): string {
    if '/' in path then BaseName(path[1..]) else path
  }

  function TrimSuffix(s: string, suffix: string): string {
    if |suffix| <= |s| && s[|s| - |suffix|..] == suffix then s[..|s| - |suffix|] else s
  }

  /** Position of the first underscore, or the length of the string. */
  function FirstUnderscore(s: string): (k: nat)
    ensures k <= |s| && '_' !in s[..k]
    ensures k < |s| ==> s[k] == '_'
  {
    if s == [] || s[0] == '_' then 0
    else
      var rest := FirstUnderscore(s[1..]);
      assert s[..rest + 1] == [s[0]] + s[1..][..rest];
      rest + 1
  }

  function Suffix(direction: string): string {
    "." + direction + ".sql"
  }

  datatype Name = Name(version: nat, name: string)

  function ParseFilename(path: string, direction: string): Result<Name> {
    var base := TrimSuffix(BaseName(path), Suffix(direction));
    var cut := FirstUnderscore(base);
    if cut == |base| then Failure
    else match ParseUint(base[..cut], VERSION_LIMIT)
      case Failure => Failure
      case Success(v) => Success(Name(v, base[cut + 1..]))
  }

  /** %03d_%s.<direction>.sql */
  function FileName(n: Name, direction: string): string {
    Pad(PrintNat(n.version), 3) + "_" + n.name + Suffix(direction)
  }

  lemma NoUnderscoreInDigits(s: string, rest: string)
    requires AllDigits(s)
    ensures FirstUnderscore(s + "_" + rest) == |s|
  {
    var t := s + "_" + rest;
    assert t[|s|] == '_';
    assert forall i :: 0 <= i < |s| ==> t[i] == s[i];
    assert forall k :: |s| < k <= |t| ==> t[..k][|s|] == '_';
  }

  /** The parser inverts the printer for every 64-bit version and every name without a slash. */
  lemma ParseInvertsPrint(n: Name, direction: string)
    requires n.version < VERSION_LIMIT && '/' !in n.name && '/' !in direction
    ensures ParseFilename(FileName(n, direction), direction) == Success(n)
  {
    ValueOfPrinted(n.version);
    ValueOfPadded(PrintNat(n.version), 3);
    ParsesAnyDigits(Pad(PrintNat(n.version), 3), n.name, direction);
  }

  /** Digits as %03d prints them: at least three, and no superfluous zero. */
  predicate Canonical(digits: string) {
    |digits| >= 3 && (|digits| > 3 ==> digits[0] != '0')
  }

  lemma {:induction false} ValuePositive(s: string)
    requires AllDigits(s) && s != [] && s[0] != '0'
    ensures Value(s) > 0
  {
    if |s| > 1 {
      ValuePositive(s[..|s| - 1]);
    }
  }

  /** Digits without a leading zero are printed back. */
  lemma {:induction false} PrintInvertsValue(s: string)
    requires AllDigits(s) && s != [] && (|s| > 1 ==> s[0] != '0')
    ensures PrintNat(Value(s)) == s
  {
    var rest, d := s[..|s| - 1], DigitValue(s[|s| - 1]);
    if |s| == 1 {
      assert Value(rest) == 0;
    } else {
      ValuePositive(rest);
      PrintInvertsValue(rest);
      assert Value(s) / 10 == Value(rest) && Value(s) % 10 == d;
      assert s == rest + [s[|s| - 1]];
    }
  }

  lemma {:induction false} PadOneMore(s: string, width: nat)
    requires |s| <= width
    ensures Pad(s, width + 1) == "0" + Pad(s, width)
    decreases width - |s|
  {
    if |s| < width {
      PadOneMore("0" + s, width);
    }
  }

  /** Zeros dropped by printing are put back by padding to the same width. */
  lemma {:induction false} PadRestores(s: string)
    requires AllDigits(s) && s != []
    ensures |PrintNat(Value(s))| <= |s| && Pad(PrintNat(Value(s)), |s|) == s
  {
    if |s| == 1 || s[0] != '0' {
      PrintInvertsValue(s);
    } else {
      var rest := s[1..];
      assert s == "0" + rest;
      LeadingZero(rest);
      PadRestores(rest);
      PadOneMore(PrintNat(Value(s)), |rest|);
    }
  }

  /** A parsed up-file is found again under the name Down builds from its version and name exactly
      when its version is written the way %03d writes it. */
  lemma {:induction false} CanonicalExactly(digits: string, name: string, direction: string)
    requires AllDigits(digits) && digits != [] && Value(digits) < VERSION_LIMIT
    requires '/' !in name && '/' !in direction
    ensures ParseFilename(digits + "_" + name + Suffix(direction), direction) == Success(Name(Value(digits), name))
    ensures FileName(Name(Value(digits), name), direction) == digits + "_" + name + Suffix(direction) <==> Canonical(digits)
  {
    ParsesAnyDigits(digits, name, direction);
    var printed := Pad(PrintNat(Value(digits)), 3);
    if Canonical(digits) {
      if |digits| > 3 {
        PrintInvertsValue(digits);
      } else {
        PadRestores(digits);
      }
    } else {
      assert Canonical(printed);
      if printed + "_" + name + Suffix(direction) == digits + "_" + name + Suffix(direction) {
        SameTail(printed, digits, "_" + name + Suffix(direction));
      }
    }
  }

  lemma SameTail(a: string, b: string, tail: string)
    requires a + tail == b + tail
    ensures a == b
  {
    assert |a + tail| == |b + tail|;
    assert (a + tail)[..|a|] == a && (b + tail)[..|b|] == b;
  }

  lemma ParsesAnyDigits(digits: string, name: string, direction: string)
    requires AllDigits(digits) && digits != [] && Value(digits) < VERSION_LIMIT
    requires '/' !in name && '/' !in direction
    ensures ParseFilename(digits + "_" + name + Suffix(direction), direction) == Success(Name(Value(digits), name))
  {
    var base := digits + "_" + name;
    var path := digits + "_" + name + Suffix(direction);
    assert path == base + Suffix(direction);
    assert '/' !in path;
    assert TrimSuffix(base + Suffix(direction), Suffix(direction)) == base;
    NoUnderscoreInDigits(digits, name);
    assert base[..|digits|] == digits && base[|digits| + 1..] == name;
  }

  /** "1_x.up.sql" is applied as version 1, but Down looks for "001_x.down.sql". */
  lemma ShortVersionIsLost()
    ensures ParseFilename("1" + "_" + "x" + Suffix("up"), "up") == Success(Name(1, "x"))
    ensures FileName(Name(1, "x"), "down") != "1" + "_" + "x" + Suffix("down")
  {
    CanonicalExactly("1", "x", "up");
    CanonicalExactly("1", "x", "down");
    assert Value("1") == 1;
  }

  /** A file name is understood exactly when digits for a 64-bit version come before an underscore; the name is
      all that follows, up to the extension. */
  lemma ParsesExactly(base: string, direction: string, n: Name)
    requires '/' !in base && '/' !in direction
    ensures ParseFilename(base + "." + direction + ".sql", direction) == Success(n) <==>
            n.version < 0x1_0000_0000_0000_0000
            && exists digits :: digits != [] && AllDigits(digits) && Value(digits) == n.version
                                && base == digits + "_" + n.name
  {
    var path := base + Suffix(direction);
    assert path == base + "." + direction + ".sql";
    assert '/' !in path && TrimSuffix(path, Suffix(direction)) == base;
    var cut := FirstUnderscore(base);
    if ParseFilename(path, direction) == Success(n) {
      var digits := base[..cut];
      assert base == digits + "_" + base[cut + 1..];
    }
    if n.version < 0x1_0000_0000_0000_0000
       && exists digits :: digits != [] && AllDigits(digits) && Value(digits) == n.version && base == digits + "_" + n.name {
      var digits :| digits != [] && AllDigits(digits) && Value(digits) == n.version && base == digits + "_" + n.name;
      NoUnderscoreInDigits(digits, n.name);
      assert base[..cut] == digits && base[cut + 1..] == n.name;
    }
  }

  lemma {:induction false} PaddedSeven()
    ensures Pad(PrintNat(7), 3) == "007"
  {
    assert PrintNat(7) == [DigitChar(7)] == "7";
    assert Pad("07", 3) == Pad("007", 3) == "007";
  }

  /** Version 7, named init, stands in the directory as 007_init. */
  lemma SampleNames(n: Name, direction: string)
    requires n.version == 7 && n.name == "init" && '/' !in direction
    ensures FileName(n, direction) == "007_init." + direction + ".sql"
    ensures ParseFilename("007_init." + direction + ".sql", direction) == Success(n)
  {
    PaddedSeven();
    assert "007" + "_" + "init" == "007_init";
    assert FileName(n, direction) == "007_init." + direction + ".sql";
    ParseInvertsPrint(n, direction);
  }
}
