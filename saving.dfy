/** Output naming of a run (`saving.py`): the numbering of attempt
    directories, the file names that encode a result's metadata, and the
    0/255 mapping applied to a binary map before it is written.

    The file system is a parameter: the directory listing is a sequence of
    entries, each with its name and whether it is a directory.  Writing the
    PNG and CSV files is not modelled, only the names and pixel values they
    get. */
module Saving {

  import opened Util

  // ---------------------------------------------------------------------
  // Decimal digits, Python's str(int) and the `03d` format
  // ---------------------------------------------------------------------

  predicate IsDigit(c: char) { '0' <= c <= '9' }

  predicate AllDigits(s: string) {
    forall i :: 0 <= i < |s| ==> IsDigit(s[i])
  }

  function DigitValue(c: char): nat
    requires IsDigit(c)
  {
    c as int - '0' as int
  }

  function DigitChar(d: nat): (c: char)
    requires d < 10
    ensures IsDigit(c) && DigitValue(c) == d
  {
    ('0' as int + d) as char
  }

  /** `int(s)` for a string of decimal digits (leading zeros allowed). */
  function ParseDigits(s: string): nat
    requires AllDigits(s)
  {
    if |s| == 0 then 0 else 10 * ParseDigits(s[..|s| - 1]) + DigitValue(s[|s| - 1])
  }

  /** The shortest decimal numeral of `n`: no leading zero except for
      zero itself, and reading it back gives `n`. */
  function Decimal(n: nat): (s: string)
    ensures 0 < |s| && AllDigits(s)
    ensures s[0] == '0' ==> s == "0"
    ensures ParseDigits(s) == n
  {
    if n < 10 then [DigitChar(n)]
    else
      var p := Decimal(n / 10);
      assert (p + [DigitChar(n % 10)])[..|p|] == p;
      p + [DigitChar(n % 10)]
  }

  /** A string of `k` zeros. */
  function Zeros(k: nat): (z: string)
    ensures |z| == k && AllDigits(z)
    ensures forall i :: 0 <= i < k ==> z[i] == '0'
  {
    seq(k, _ => '0')
  }

  /** Left-pads a digit string with zeros to at least `width` characters. */
  function ZeroPad(s: string, width: nat): (r: string)
    requires AllDigits(s)
    ensures AllDigits(r) && |r| == MaxInt(|s|, width)
    ensures r[|r| - |s|..] == s
  {
    if |s| >= width then s else Zeros(width - |s|) + s
  }

  /** Leading zeros do not change the value of a numeral. */
  lemma {:induction false} LeadingZerosIgnored(k: nat, s: string)
    requires AllDigits(s)
    ensures ParseDigits(Zeros(k) + s) == ParseDigits(s)
  {
    if |s| == 0 {
      assert Zeros(k) + s == Zeros(k);
      ZerosAreZero(k);
    } else {
      var last := |s| - 1;
      assert (Zeros(k) + s)[..k + last] == Zeros(k) + s[..last];
      LeadingZerosIgnored(k, s[..last]);
    }
  }

  lemma {:induction false} ZerosAreZero(k: nat)
    ensures ParseDigits(Zeros(k)) == 0
  {
    if k > 0 {
      assert Zeros(k)[..k - 1] == Zeros(k - 1);
      ZerosAreZero(k - 1);
    }
  }

  /** A decimal numeral, possibly with a leading minus sign. */
  predicate Numeral(s: string) {
    0 < |s| && (AllDigits(s) || (s[0] == '-' && 1 < |s| && AllDigits(s[1..])))
  }

  /** The value of a numeral (`int(s)`). */
  function ParseInt(s: string): int
    requires Numeral(s)
  {
    if s[0] == '-' then -(ParseDigits(s[1..]) as int) else ParseDigits(s)
  }

  /** Python's `str(n)` / `f"{n}"` for an integer. */
  function IntString(n: int): (s: string)
    ensures Numeral(s) && ParseInt(s) == n
  {
    if n < 0 then
      var d := Decimal(-n);
      assert ("-" + d)[1..] == d;
      "-" + d
    else Decimal(n)
  }

  /** `f"{n:03d}"`: zero-padded to a width of three, the sign counting
      towards the width. */
  function Pad3(n: int): (s: string)
    ensures Numeral(s) && ParseInt(s) == n && 3 <= |s|
    ensures 0 <= n ==> AllDigits(s)
    ensures 0 <= n < 1000 ==> |s| == 3
  {
    if n < 0 then
      var d := Decimal(-n);
      var p := ZeroPad(d, 2);
      assert ("-" + p)[1..] == p;
      PaddedValue(d, 2);
      "-" + p
    else
      PaddedValue(Decimal(n), 3);
      NumeralWidth(n);
      ZeroPad(Decimal(n), 3)
  }

  lemma PaddedValue(s: string, width: nat)
    requires AllDigits(s)
    ensures ParseDigits(ZeroPad(s, width)) == ParseDigits(s)
  {
    if |s| < width {
      assert ZeroPad(s, width) == Zeros(width - |s|) + s;
      LeadingZerosIgnored(width - |s|, s);
    }
  }

  /** A number below 1000 has at most three digits. */
  lemma NumeralWidth(n: nat)
    ensures n < 1000 ==> |Decimal(n)| <= 3
  {
    if 10 <= n < 100 {
      assert |Decimal(n / 10)| == 1;
    } else if 100 <= n < 1000 {
      assert |Decimal(n / 10 / 10)| == 1;
      assert |Decimal(n / 10)| == 2;
    }
  }

  // ---------------------------------------------------------------------
  // Attempt numbering (`make_attempt_dir`)
  // ---------------------------------------------------------------------

  /** One entry of the project root's listing. */
  datatype DirEntry = DirEntry(name: string, isDir: bool)

  /** `s` without one trailing newline, the only character Python's `$`
      lets stand after the end of a match. */
  function StripNewline(s: string): (t: string)
    ensures |s| - 1 <= |t| <= |s| && t == s[..|t|]
    ensures |t| < |s| <==> 0 < |s| && s[|s| - 1] == '\n'
  {
    if 0 < |s| && s[|s| - 1] == '\n' then s[..|s| - 1] else s
  }

  /** The number captured by `^prefix_(\d+)$` on `name`, if it matches.
      The prefix is matched literally (it is escaped), and, as with
      Python's `$`, one trailing newline after the digits is accepted.
      A match is exactly `prefix_` followed by a nonempty run of digits and
      at most one newline, and its value is those digits'. */
  function AttemptSuffix(prefix: string, name: string): (r: Option<nat>)
    ensures r.Some? ==> |prefix| + 1 < |name| && name[..|prefix| + 1] == prefix + "_"
    ensures r.Some? ==> forall i :: |prefix| + 1 <= i < |name| - 1 ==> IsDigit(name[i])
    ensures r.Some? <==>
              |prefix| + 1 < |name| && name[..|prefix| + 1] == prefix + "_" &&
              0 < |StripNewline(name[|prefix| + 1..])| && AllDigits(StripNewline(name[|prefix| + 1..]))
    ensures r.Some? ==> r.value == ParseDigits(StripNewline(name[|prefix| + 1..]))
  {
    var lead := prefix + "_";
    if |name| <= |lead| || name[..|lead|] != lead then None
    else
      var rest := name[|lead|..];
      var digits := StripNewline(rest);
      if 0 < |digits| && AllDigits(digits) then
        assert forall i :: |lead| <= i < |name| - 1 ==> name[i] == digits[i - |lead|];
        Some(ParseDigits(digits))
      else None
  }

  /** `prefix_` followed by `rest` matches, with the value of `rest`'s
      digits, when `rest` is a nonempty run of digits and at most one
      trailing newline. */
  lemma MatchAfterLead(prefix: string, rest: string)
    requires 0 < |StripNewline(rest)| && AllDigits(StripNewline(rest))
    ensures AttemptSuffix(prefix, prefix + "_" + rest) == Some(ParseDigits(StripNewline(rest)))
  {
    var lead := prefix + "_";
    assert (lead + rest)[..|lead|] == lead;
    assert (lead + rest)[|lead|..] == rest;
  }

  /** `prefix_` followed by a nonempty digit string matches, with the
      digits' value. */
  lemma SuffixOfAttemptName(prefix: string, digits: string)
    requires 0 < |digits| && AllDigits(digits)
    ensures AttemptSuffix(prefix, prefix + "_" + digits) == Some(ParseDigits(digits))
    ensures AttemptSuffix(prefix, prefix + "_" + digits + "\n") == Some(ParseDigits(digits))
  {
    assert IsDigit(digits[|digits| - 1]);
    assert StripNewline(digits) == digits;
    MatchAfterLead(prefix, digits);
    assert (digits + "\n")[..|digits|] == digits;
    assert StripNewline(digits + "\n") == digits;
    MatchAfterLead(prefix, digits + "\n");
    assert prefix + "_" + digits + "\n" == prefix + "_" + (digits + "\n");
  }

  /** What an entry contributes to the scan: directories only. */
  function Scanned(prefix: string, e: DirEntry): Option<nat> {
    if e.isDir then AttemptSuffix(prefix, e.name) else None
  }

  /** The largest number among the matching directories, 0 if none. */
  function MaxAttempt(prefix: string, entries: seq<DirEntry>): (m: nat)
    ensures forall k :: 0 <= k < |entries| && Scanned(prefix, entries[k]).Some? ==>
              Scanned(prefix, entries[k]).value <= m
  {
    if |entries| == 0 then 0
    else
      var init := entries[..|entries| - 1];
      var last := entries[|entries| - 1];
      var m := MaxAttempt(prefix, init);
      assert forall k :: 0 <= k < |init| ==> init[k] == entries[k];
      match Scanned(prefix, last)
      case Some(n) => if n > m then n else m
      case None => m
  }

  /** The directory name for attempt `n`: the prefix and '_', then a
      numeral of at least three characters that reads back as `n`. */
  function AttemptName(prefix: string, n: int): (name: string)
    ensures |prefix| + 4 <= |name| && name[..|prefix| + 1] == prefix + "_"
    ensures Numeral(name[|prefix| + 1..]) && ParseInt(name[|prefix| + 1..]) == n
    ensures 0 <= n < 1000 ==> |name| == |prefix| + 4
  {
    var name := prefix + "_" + Pad3(n);
    assert name[|prefix| + 1..] == Pad3(n);
    name
  }

  /** `os.path.join(a, b)` on POSIX: an absolute `b` replaces `a`, and a
      separator is inserted only when `a` has none at its end. */
  function Join(a: string, b: string): (p: string)
    ensures |b| <= |p| && p[|p| - |b|..] == b
    ensures 0 < |b| && b[0] == '/' ==> p == b
    ensures 0 < |b| && b[0] != '/' ==> p == a + b || p == a + "/" + b
  {
    if 0 < |b| && b[0] == '/' then b
    else if |a| == 0 || a[|a| - 1] == '/' then a + b
    else a + "/" + b
  }

  /** `make_attempt_dir`: scans the listing of `root`, keeping the largest
      matching number, and returns the next attempt's path and number
      (creating the directory is left to the caller). */
  method MakeAttemptDir(root: string, listing: seq<DirEntry>, prefix: string)
    returns (dir: string, n: nat)
    ensures n == MaxAttempt(prefix, listing) + 1
    ensures dir == Join(root, AttemptName(prefix, n))
  {
    var maxn := 0;
    for k := 0 to |listing|
      invariant maxn == MaxAttempt(prefix, listing[..k])
    {
      assert listing[..k + 1][..k] == listing[..k];
      var e := listing[k];
      if e.isDir {
        var m := AttemptSuffix(prefix, e.name);
        if m.Some? {
          if m.value > maxn {
            maxn := m.value;
          }
        }
      }
    }
    assert listing[..|listing|] == listing;
    n := maxn + 1;
    dir := Join(root, AttemptName(prefix, n));
  }

  /** The new attempt's name is that of no existing directory. */
  lemma {:induction false} NewAttemptIsFresh(prefix: string, listing: seq<DirEntry>, k: nat)
    requires k < |listing| && listing[k].isDir
    ensures listing[k].name != AttemptName(prefix, MaxAttempt(prefix, listing) + 1)
  {
    var n := MaxAttempt(prefix, listing) + 1;
    ScannedBelowNext(prefix, listing, k);
    if listing[k].name == AttemptName(prefix, n) {
      AttemptNameMatches(prefix, n);
      assert false;
    }
  }

  /** A scanned directory's number is below the next attempt's. */
  lemma ScannedBelowNext(prefix: string, listing: seq<DirEntry>, k: nat)
    requires k < |listing| && listing[k].isDir
    ensures var s := AttemptSuffix(prefix, listing[k].name);
            s.Some? ==> s.value < MaxAttempt(prefix, listing) + 1
  {
    assert Scanned(prefix, listing[k]) == AttemptSuffix(prefix, listing[k].name);
  }

  /** The largest number is that of some matching directory, unless
      none matches. */
  lemma {:induction false} MaxAttemptAttained(prefix: string, entries: seq<DirEntry>)
    ensures var m := MaxAttempt(prefix, entries);
            m == 0 || exists k :: 0 <= k < |entries| && Scanned(prefix, entries[k]) == Some(m)
  {
    if |entries| > 0 {
      var init := entries[..|entries| - 1];
      var e := entries[|entries| - 1];
      MaxAttemptAttained(prefix, init);
      assert init + [e] == entries;
      match Scanned(prefix, e)
      case Some(v) =>
        MaxAttemptHit(prefix, init, e, v);
        if v <= MaxAttempt(prefix, init) && MaxAttempt(prefix, init) != 0 {
          var k :| 0 <= k < |init| && Scanned(prefix, init[k]) == Some(MaxAttempt(prefix, init));
          assert entries[k] == init[k];
        }
      case None =>
        MaxAttemptMiss(prefix, init, e);
        if MaxAttempt(prefix, init) != 0 {
          var k :| 0 <= k < |init| && Scanned(prefix, init[k]) == Some(MaxAttempt(prefix, init));
          assert entries[k] == init[k];
        }
    }
  }

  /** The name of attempt `n` is matched by the scan, with number `n`. */
  lemma AttemptNameMatches(prefix: string, n: nat)
    ensures AttemptSuffix(prefix, AttemptName(prefix, n)) == Some(n)
  {
    var d := Pad3(n);
    assert d[0] != '-';
    SuffixOfAttemptName(prefix, d);
  }

  /** Numbering starts at 1 when no directory matches. */
  lemma FirstAttemptIsOne(prefix: string, listing: seq<DirEntry>)
    requires forall k :: 0 <= k < |listing| ==> Scanned(prefix, listing[k]).None?
    ensures MaxAttempt(prefix, listing) + 1 == 1
  {
  }

  /** Once attempt `n` exists, the next scan proposes `n + 1`. */
  lemma {:induction false} NumberingAdvances(prefix: string, listing: seq<DirEntry>)
    ensures var n := MaxAttempt(prefix, listing) + 1;
            MaxAttempt(prefix, listing + [DirEntry(AttemptName(prefix, n), true)]) + 1 == n + 1
  {
    var n := MaxAttempt(prefix, listing) + 1;
    var e := DirEntry(AttemptName(prefix, n), true);
    AttemptNameMatches(prefix, n);
    assert Scanned(prefix, e) == Some(n);
    MaxAttemptHit(prefix, listing, e, n);
  }

  /** Scanning one more matching directory. */
  lemma MaxAttemptHit(prefix: string, listing: seq<DirEntry>, e: DirEntry, v: nat)
    requires Scanned(prefix, e) == Some(v)
    ensures MaxAttempt(prefix, listing + [e]) == MaxInt(v, MaxAttempt(prefix, listing))
  {
    assert (listing + [e])[..|listing|] == listing;
  }

  /** Scanning one more entry that does not count. */
  lemma MaxAttemptMiss(prefix: string, listing: seq<DirEntry>, e: DirEntry)
    requires Scanned(prefix, e).None?
    ensures MaxAttempt(prefix, listing + [e]) == MaxAttempt(prefix, listing)
  {
    assert (listing + [e])[..|listing|] == listing;
  }

  /** An ordinary file with an attempt-like name is not counted. */
  lemma FilesIgnored(prefix: string, listing: seq<DirEntry>, name: string)
    ensures MaxAttempt(prefix, listing + [DirEntry(name, false)]) == MaxAttempt(prefix, listing)
  {
    MaxAttemptMiss(prefix, listing, DirEntry(name, false));
  }

  /** The docstring's sequence: with `attempt_001` present the next
      directory is `attempt_002`. */
  lemma SecondAttempt()
    ensures MaxAttempt("attempt", [DirEntry("attempt_001", true)]) + 1 == 2
    ensures AttemptName("attempt", 2) == "attempt_002"
  {
    SuffixOfAttemptName("attempt", "001");
    assert "attempt" + "_" + "001" == "attempt_001";
    assert Pad3(2) == "002";
  }

  // ---------------------------------------------------------------------
  // File names (`_safe_basename`, `format_image_filename`,
  // `format_table_filename`)
  // ---------------------------------------------------------------------

  /** Index of the last `c` in `s`, or -1 when there is none. */
  function LastIndex(s: string, c: char): (k: int)
    ensures -1 <= k < |s|
    ensures 0 <= k ==> s[k] == c
    ensures forall i :: k < i < |s| ==> s[i] != c
  {
    if |s| == 0 then -1
    else if s[|s| - 1] == c then |s| - 1
    else LastIndex(s[..|s| - 1], c)
  }

  /** `os.path.basename`: what follows the last '/'. */
  function Basename(p: string): (b: string)
    ensures '/' !in b
    ensures |b| <= |p| && p[|p| - |b|..] == b
  {
    p[LastIndex(p, '/') + 1..]
  }

  predicate AllDots(s: string) {
    forall i :: 0 <= i < |s| ==> s[i] == '.'
  }

  /** The root of `os.path.splitext` on a name without '/': the name cut
      at its last '.', unless only dots precede that '.' (so ".bashrc"
      and "..png" keep their dot). */
  function StripExtension(b: string): (r: string)
    ensures |r| <= |b| && b[..|r|] == r
    ensures |r| == |b| || (b[|r|] == '.' && '.' !in b[|r| + 1..] && !AllDots(r))
  {
    var d := LastIndex(b, '.');
    if 0 <= d && !AllDots(b[..d]) then
      b[..d]
    else b
  }

  /** `_safe_basename`: the base name without its extension. */
  function SafeBasename(path: string): (r: string)
    ensures '/' !in r
    ensures var b := Basename(path); |r| <= |b| && b[..|r|] == r
  {
    StripExtension(Basename(path))
  }

  /** A file `stem + ext` in any directory has the safe base name `stem`,
      when the stem has no '/', does not start with '.', and the extension
      is a '.' followed by no further '.' or '/'. */
  lemma SafeBasenameOfFile(dir: string, stem: string, ext: string)
    requires 0 < |stem| && '/' !in stem && stem[0] != '.'
    requires 0 < |ext| && ext[0] == '.' && '.' !in ext[1..] && '/' !in ext
    ensures SafeBasename(dir + "/" + stem + ext) == stem
  {
    var name := stem + ext;
    assert dir + "/" + stem + ext == dir + "/" + name;
    BasenameOfFile(dir, name);
    StripExtensionOfFile(stem, ext);
  }

  /** The base name of `dir/name` is `name` when `name` has no '/'. */
  lemma BasenameOfFile(dir: string, name: string)
    requires '/' !in name
    ensures Basename(dir + "/" + name) == name
  {
    LastIndexAfter(dir + "/", name, '/');
    assert (dir + "/" + name)[|dir| + 1..] == name;
  }

  /** Stripping the extension of `stem + ext` leaves `stem`. */
  lemma StripExtensionOfFile(stem: string, ext: string)
    requires 0 < |stem| && stem[0] != '.'
    requires 0 < |ext| && ext[0] == '.' && '.' !in ext[1..]
    ensures StripExtension(stem + ext) == stem
  {
    assert ext == "." + ext[1..];
    assert stem + ext == (stem + ".") + ext[1..];
    LastIndexAfter(stem + ".", ext[1..], '.');
    assert (stem + ext)[..|stem|] == stem;
    assert !AllDots(stem);
  }

  /** The last `c` of `u + v` is the final character of `u` when `v` has
      none. */
  lemma {:induction false} LastIndexAfter(u: string, v: string, c: char)
    requires 0 < |u| && u[|u| - 1] == c && c !in v
    ensures LastIndex(u + v, c) == |u| - 1
  {
    if |v| == 0 {
      assert u + v == u;
    } else {
      assert (u + v)[|u + v| - 1] == v[|v| - 1];
      assert (u + v)[..|u + v| - 1] == u + v[..|v| - 1];
      LastIndexAfter(u, v[..|v| - 1], c);
    }
  }

  /** `what.replace(' ', '_')`: every space becomes an underscore. */
  function ReplaceSpaces(s: string): (r: string)
    ensures |r| == |s| && ' ' !in r
    ensures forall i :: 0 <= i < |s| && s[i] != ' ' ==> r[i] == s[i]
    ensures forall i :: 0 <= i < |s| && s[i] == ' ' ==> r[i] == '_'
  {
    seq(|s|, i requires 0 <= i < |s| => if s[i] == ' ' then '_' else s[i])
  }

  /** A field of a file name: its tag, its value, then the rest. */
  function Tagged(tag: string, value: string, rest: string): string {
    tag + value + rest
  }

  /** A numeral holds only digits and a sign, so no path separator. */
  lemma NumeralHasNoSlash(s: string)
    requires Numeral(s)
    ensures '/' !in s
  {
    if !AllDigits(s) {
      forall i | 1 <= i < |s| ensures s[i] != '/' {
        assert s[i] == s[1..][i - 1];
      }
    }
  }

  /** `s` ends with `e`. */
  predicate EndsWith(s: string, e: string) {
    |e| <= |s| && s[|s| - |e|..] == e
  }

  /** A tagged field keeps the suffix of what follows it, is longer than
      it, and adds no '/' when its tag and value have none. */
  lemma TaggedParts(tag: string, value: string, rest: string, e: string)
    requires 0 < |tag| && EndsWith(rest, e)
    ensures EndsWith(Tagged(tag, value, rest), e) && |rest| < |Tagged(tag, value, rest)|
    ensures '/' !in tag && '/' !in value && '/' !in rest ==> '/' !in Tagged(tag, value, rest)
  {
    var s := Tagged(tag, value, rest);
    assert s == (tag + value) + rest;
    assert s[|s| - |e|..] == rest[|rest| - |e|..];
  }

  /** A head followed by a tail: the head is a prefix, the tail's suffix
      is kept, and no '/' appears that neither part has. */
  lemma HeadParts(head: string, tail: string, e: string)
    requires EndsWith(tail, e)
    ensures var s := head + tail;
            s[..|head|] == head && EndsWith(s, e)
    ensures '/' !in head && '/' !in tail ==> '/' !in head + tail
  {
    var s := head + tail;
    assert s[|s| - |e|..] == tail[|tail| - |e|..];
  }

  /** `format_image_filename`: the cleaned `what` comes first and `ext`
      last, and the name has no '/' when neither `what` nor `ext` has one,
      so joining it to a directory puts the file in that directory. */
  function ImageFilename(what: string, sourcePath: string, attemptNum: int, totalMc: int,
                         mcIdx: int, maskSize: int, ext: string): (r: string)
    ensures |what| + |ext| < |r|
    ensures r[..|what|] == ReplaceSpaces(what) && EndsWith(r, ext)
    ensures '/' !in what && '/' !in ext ==> '/' !in r
  {
    NumeralHasNoSlash(Pad3(attemptNum));
    NumeralHasNoSlash(IntString(totalMc));
    NumeralHasNoSlash(IntString(mcIdx));
    NumeralHasNoSlash(IntString(maskSize));
    ImageFields(ReplaceSpaces(what), SafeBasename(sourcePath), Pad3(attemptNum),
                IntString(totalMc), IntString(mcIdx), IntString(maskSize), ext)
  }

  /** The fields of an image file name, already rendered as strings. */
  function ImageFields(head: string, src: string, attempt: string, total: string,
                       mc: string, mask: string, ext: string): (r: string)
    ensures |head| + |ext| < |r|
    ensures r[..|head|] == head && EndsWith(r, ext)
    ensures ('/' !in head && '/' !in src && '/' !in attempt && '/' !in total &&
             '/' !in mc && '/' !in mask && '/' !in ext) ==> '/' !in r
  {
    var r4 := Tagged("_mc-", mc, Tagged("_mask-", mask, ext));
    TaggedParts("_mask-", mask, ext, ext);
    TaggedParts("_mc-", mc, Tagged("_mask-", mask, ext), ext);
    TableFields(head, src, attempt, total, r4, ext)
  }

  /** `format_table_filename`: `base` comes first and `ext` last, and the
      name has no '/' when neither `base` nor `ext` has one. */
  function TableFilename(base: string, sourcePath: string, attemptNum: int, totalMc: int,
                         ext: string): (r: string)
    ensures |base| + |ext| < |r|
    ensures r[..|base|] == base && EndsWith(r, ext)
    ensures '/' !in base && '/' !in ext ==> '/' !in r
  {
    NumeralHasNoSlash(Pad3(attemptNum));
    NumeralHasNoSlash(IntString(totalMc));
    TableFields(base, SafeBasename(sourcePath), Pad3(attemptNum), IntString(totalMc), ext, ext)
  }

  /** The head, source, attempt and total fields, followed by `rest`
      (which ends with `e`). */
  function TableFields(head: string, src: string, attempt: string, total: string,
                       rest: string, e: string): (r: string)
    requires EndsWith(rest, e)
    ensures |head| + |rest| < |r|
    ensures r[..|head|] == head && EndsWith(r, e)
    ensures '/' !in head && '/' !in src && '/' !in attempt && '/' !in total && '/' !in rest ==> '/' !in r
  {
    var r3 := Tagged("_mcTotal-", total, rest);
    TaggedParts("_mcTotal-", total, rest, e);
    var r2 := Tagged("_attempt-", attempt, r3);
    TaggedParts("_attempt-", attempt, r3, e);
    var r1 := Tagged("_src-", src, r2);
    TaggedParts("_src-", src, r2, e);
    HeadParts(head, r1, e);
    head + r1
  }

  /** The defaults of the two formatters. */
  const ImageExt := ".png"
  const TableExt := ".csv"

  /** A string that cannot continue a numeral. */
  predicate EndsNumeral(s: string) {
    |s| == 0 || (!IsDigit(s[0]) && s[0] != '-')
  }

  lemma CancelPrefix(x: string, r1: string, r2: string)
    requires x + r1 == x + r2
    ensures r1 == r2
  {
    assert r1 == (x + r1)[|x|..];
    assert r2 == (x + r2)[|x|..];
  }

  /** Past its first character a numeral holds only digits. */
  lemma NumeralDigit(s: string, k: nat)
    requires Numeral(s) && 0 < k < |s|
    ensures IsDigit(s[k])
  {
    if !AllDigits(s) {
      assert s[1..][k - 1] == s[k];
    }
  }

  /** The end of the digit run of `t` that starts at `k`. */
  function DigitRunEnd(t: string, k: nat): (e: nat)
    requires k <= |t|
    decreases |t| - k
  {
    if k == |t| || !IsDigit(t[k]) then k else DigitRunEnd(t, k + 1)
  }

  /** In a numeral followed by something that cannot continue it, the
      digit run from the second character ends where the numeral ends. */
  lemma {:induction false} NumeralRun(a: string, x: string, k: nat)
    requires Numeral(a) && EndsNumeral(x) && 1 <= k <= |a|
    ensures DigitRunEnd(a + x, k) == |a|
    decreases |a| - k
  {
    if k < |a| {
      NumeralDigit(a, k);
      assert (a + x)[k] == a[k];
      NumeralRun(a, x, k + 1);
    } else if |x| > 0 {
      assert (a + x)[k] == x[0];
    }
  }

  /** A numeral followed by something that cannot continue it is
      determined by the whole: the split point is unique. */
  lemma NumeralSplit(a: string, x: string, b: string, y: string)
    requires Numeral(a) && Numeral(b) && EndsNumeral(x) && EndsNumeral(y)
    requires a + x == b + y
    ensures a == b && x == y
  {
    NumeralRun(a, x, 1);
    NumeralRun(b, y, 1);
    assert a == (a + x)[..|a|];
    assert b == (b + y)[..|b|];
    CancelPrefix(a, x, y);
  }

  /** Equal fields with a numeral value: the tags agree by assumption, so
      the values and the rests agree. */
  lemma TaggedNumeral(tag: string, v1: string, r1: string, v2: string, r2: string)
    requires Numeral(v1) && Numeral(v2) && EndsNumeral(r1) && EndsNumeral(r2)
    requires Tagged(tag, v1, r1) == Tagged(tag, v2, r2)
    ensures v1 == v2 && r1 == r2
  {
    assert tag + v1 + r1 == tag + (v1 + r1);
    assert tag + v2 + r2 == tag + (v2 + r2);
    CancelPrefix(tag, v1 + r1, v2 + r2);
    NumeralSplit(v1, r1, v2, r2);
  }

  lemma TaggedRest(tag: string, v: string, r1: string, r2: string)
    requires Tagged(tag, v, r1) == Tagged(tag, v, r2)
    ensures r1 == r2
  {
    CancelPrefix(tag + v, r1, r2);
  }

  /** Images of the same map that differ in attempt, total, iteration
      or mask size get different names, so they never overwrite each
      other. */
  lemma ImageFilenamesDistinct(what: string, src: string, ext: string,
                               a1: int, t1: int, i1: int, m1: int,
                               a2: int, t2: int, i2: int, m2: int)
    requires EndsNumeral(ext)
    requires ImageFilename(what, src, a1, t1, i1, m1, ext) == ImageFilename(what, src, a2, t2, i2, m2, ext)
    ensures a1 == a2 && t1 == t2 && i1 == i2 && m1 == m2
  {
    var s := SafeBasename(src);
    var r1 := Tagged("_attempt-", Pad3(a1), Tagged("_mcTotal-", IntString(t1),
              Tagged("_mc-", IntString(i1), Tagged("_mask-", IntString(m1), ext))));
    var r2 := Tagged("_attempt-", Pad3(a2), Tagged("_mcTotal-", IntString(t2),
              Tagged("_mc-", IntString(i2), Tagged("_mask-", IntString(m2), ext))));
    CancelPrefix(ReplaceSpaces(what), Tagged("_src-", s, r1), Tagged("_src-", s, r2));
    TaggedRest("_src-", s, r1, r2);
    TaggedNumeral("_attempt-", Pad3(a1), Tagged("_mcTotal-", IntString(t1),
                    Tagged("_mc-", IntString(i1), Tagged("_mask-", IntString(m1), ext))),
                  Pad3(a2), Tagged("_mcTotal-", IntString(t2),
                    Tagged("_mc-", IntString(i2), Tagged("_mask-", IntString(m2), ext))));
    TaggedNumeral("_mcTotal-", IntString(t1), Tagged("_mc-", IntString(i1), Tagged("_mask-", IntString(m1), ext)),
                  IntString(t2), Tagged("_mc-", IntString(i2), Tagged("_mask-", IntString(m2), ext)));
    TaggedNumeral("_mc-", IntString(i1), Tagged("_mask-", IntString(m1), ext),
                  IntString(i2), Tagged("_mask-", IntString(m2), ext));
    TaggedNumeral("_mask-", IntString(m1), ext, IntString(m2), ext);
  }

  /** Tables of the same kind from different attempts or totals get
      different names. */
  lemma TableFilenamesDistinct(base: string, src: string, ext: string,
                               a1: int, t1: int, a2: int, t2: int)
    requires EndsNumeral(ext)
    requires TableFilename(base, src, a1, t1, ext) == TableFilename(base, src, a2, t2, ext)
    ensures a1 == a2 && t1 == t2
  {
    var s := SafeBasename(src);
    var r1 := Tagged("_attempt-", Pad3(a1), Tagged("_mcTotal-", IntString(t1), ext));
    var r2 := Tagged("_attempt-", Pad3(a2), Tagged("_mcTotal-", IntString(t2), ext));
    CancelPrefix(base, Tagged("_src-", s, r1), Tagged("_src-", s, r2));
    TaggedRest("_src-", s, r1, r2);
    TaggedNumeral("_attempt-", Pad3(a1), Tagged("_mcTotal-", IntString(t1), ext),
                  Pad3(a2), Tagged("_mcTotal-", IntString(t2), ext));
    TaggedNumeral("_mcTotal-", IntString(t1), ext, IntString(t2), ext);
  }

  // ---------------------------------------------------------------------
  // The 0/255 mapping of `save_binary_image`
  // ---------------------------------------------------------------------

  type Byte = x: int | 0 <= x < 256

  /** A map handed to `save_binary_image`: already `uint8`, or of another
      numeric dtype (integers, booleans as 0/1 and floats, as reals). */
  datatype BinaryMap = U8Map(bytes: Grid<Byte>) | NumericMap(values: Grid<real>)

  predicate MapRect(m: BinaryMap) {
    match m
    case U8Map(b) => Rect(b)
    case NumericMap(v) => Rect(v)
  }

  function MapHeight(m: BinaryMap): nat {
    match m
    case U8Map(b) => |b|
    case NumericMap(v) => |v|
  }

  function MapWidth(m: BinaryMap): nat {
    match m
    case U8Map(b) => Width(b)
    case NumericMap(v) => Width(v)
  }

  /** Whether a pixel is saved as white: `> 0` for a uint8 map, nonzero
      (`astype(bool)`) for any other dtype. */
  predicate Lit(m: BinaryMap, i: nat, j: nat)
    requires MapRect(m) && i < MapHeight(m) && j < MapWidth(m)
  {
    match m
    case U8Map(b) => b[i][j] > 0
    case NumericMap(v) => v[i][j] != 0.0
  }

  /** The pixels written by `save_binary_image`: 255 where lit, 0 elsewhere. */
  function SavedPixels(m: BinaryMap): (out: Grid<Byte>)
    requires MapRect(m)
    ensures IsGrid(out, MapHeight(m), MapWidth(m))
    ensures forall i, j :: 0 <= i < MapHeight(m) && 0 <= j < MapWidth(m) ==>
              (out[i][j] == 255 <==> Lit(m, i, j)) && (out[i][j] == 0 <==> !Lit(m, i, j))
  {
    seq(MapHeight(m), i requires 0 <= i < MapHeight(m) =>
      seq(MapWidth(m), j requires 0 <= j < MapWidth(m) => if Lit(m, i, j) then 255 else 0))
  }

  /** Saving an already saved picture again writes the same pixels. */
  lemma SavedPixelsIdempotent(m: BinaryMap)
    requires MapRect(m)
    ensures SavedPixels(U8Map(SavedPixels(m))) == SavedPixels(m)
  {
    var once := SavedPixels(m);
    assert Width(once) == MapWidth(m) by {
      if MapHeight(m) > 0 { assert |once[0]| == MapWidth(m); }
    }
    var twice := SavedPixels(U8Map(once));
    forall i | 0 <= i < |once|
      ensures twice[i] == once[i]
    {
    }
  }

  /** An integer map as a float map (`astype(float)`). */
  function AsReals(b: Grid<int>): (v: Grid<real>)
    requires Rect(b)
    ensures IsGrid(v, |b|, Width(b)) && Width(v) == Width(b)
    ensures forall i, j :: 0 <= i < |b| && 0 <= j < Width(b) ==> v[i][j] == b[i][j] as real
  {
    var v := seq(|b|, i requires 0 <= i < |b| =>
      seq(Width(b), j requires 0 <= j < Width(b) => b[i][j] as real));
    assert |b| > 0 ==> |v[0]| == Width(b);
    v
  }

  /** For a map of non-negative values the two dtype branches agree: a
      uint8 copy of the map is saved like the map itself. */
  lemma DtypeBranchesAgree(b: Grid<Byte>)
    requires Rect(b)
    ensures SavedPixels(U8Map(b)) == SavedPixels(NumericMap(AsReals(b)))
  {
    var u, n := SavedPixels(U8Map(b)), SavedPixels(NumericMap(AsReals(b)));
    forall i | 0 <= i < |b|
      ensures u[i] == n[i]
    {
    }
  }

  /** A 0/1 map from the hysteresis step is saved as 255 times itself. */
  lemma BinaryMapScaled(bw: Grid<int>)
    requires Rect(bw)
    requires forall i, j :: 0 <= i < |bw| && 0 <= j < Width(bw) ==> bw[i][j] == 0 || bw[i][j] == 1
    ensures var saved := SavedPixels(NumericMap(AsReals(bw)));
            forall i, j :: 0 <= i < |bw| && 0 <= j < Width(bw) ==> saved[i][j] == 255 * bw[i][j]
  {
  }

  /** `p` names the file `name` directly inside `dir`. */
  predicate DirectlyIn(p: string, dir: string, name: string) {
    p == dir + name || p == dir + "/" + name
  }

  /** A name joined to a directory: the path ends with the name, and a
      non-empty name without '/' lands directly in the directory. */
  function InDir(dir: string, name: string): (p: string)
    ensures EndsWith(p, name)
    ensures 0 < |name| && '/' !in name ==> DirectlyIn(p, dir, name)
  {
    if 0 < |name| && '/' !in name then
      JoinRelative(dir, name);
      Join(dir, name)
    else Join(dir, name)
  }

  /** `save_binary_image`'s path: the formatted name in `outDir`, and
      directly inside it when `what` has no '/'. */
  function SavedImagePath(outDir: string, what: string, sourcePath: string, attemptNum: int,
                          totalMc: int, mcIdx: int, maskSize: int): (p: string)
    ensures var name := ImageFilename(what, sourcePath, attemptNum, totalMc, mcIdx, maskSize, ImageExt);
            EndsWith(p, name) && ('/' !in what ==> DirectlyIn(p, outDir, name))
  {
    var name := ImageFilename(what, sourcePath, attemptNum, totalMc, mcIdx, maskSize, ImageExt);
    if '/' !in what then
      ImageNameRelative(what, sourcePath, attemptNum, totalMc, mcIdx, maskSize);
      InDir(outDir, name)
    else InDir(outDir, name)
  }

  /** An image name is a non-empty relative name without '/' when `what`
      has none. */
  lemma ImageNameRelative(what: string, sourcePath: string, attemptNum: int, totalMc: int,
                          mcIdx: int, maskSize: int)
    requires '/' !in what
    ensures var name := ImageFilename(what, sourcePath, attemptNum, totalMc, mcIdx, maskSize, ImageExt);
            0 < |name| && '/' !in name
  {
    assert '/' !in ImageExt;
  }

  /** `save_table`'s path: the formatted CSV name in `outDir`, with
      ".json" appended when the CSV writer failed and JSON was written
      instead. */
  function SavedTablePath(outDir: string, base: string, sourcePath: string, attemptNum: int,
                          totalMc: int, csvWritten: bool): (p: string)
    ensures EndsWith(p, TableFilename(base, sourcePath, attemptNum, totalMc, TableExt) +
                        (if csvWritten then "" else ".json"))
    ensures csvWritten ==> EndsWith(p, TableExt)
    ensures !csvWritten ==> EndsWith(p, TableExt + ".json")
    ensures var name := TableFilename(base, sourcePath, attemptNum, totalMc, TableExt);
            csvWritten && '/' !in base ==> DirectlyIn(p, outDir, name)
  {
    var name := TableFilename(base, sourcePath, attemptNum, totalMc, TableExt);
    FallbackPath(InDir(outDir, name), name, TableExt, csvWritten)
  }

  /** The written path: `path` itself, or `path + ".json"` after the
      fallback. */
  function FallbackPath(path: string, name: string, ext: string, csvWritten: bool): (p: string)
    requires EndsWith(path, name) && EndsWith(name, ext)
    ensures EndsWith(p, name + (if csvWritten then "" else ".json"))
    ensures csvWritten ==> EndsWith(p, ext)
    ensures !csvWritten ==> EndsWith(p, ext + ".json")
  {
    assert path[|path| - |ext|..] == name[|name| - |ext|..];
    if csvWritten then
      assert name + "" == name;
      path
    else
      var q := path + ".json";
      assert q[|q| - |name + ".json"|..] == path[|path| - |name|..] + ".json";
      assert q[|q| - |ext + ".json"|..] == path[|path| - |ext|..] + ".json";
      q
  }

  /** The JSON fallback writes next to the CSV file it replaces: its path
      is the CSV path with ".json" appended. */
  lemma SavedTableFallback(outDir: string, base: string, sourcePath: string, attemptNum: int, totalMc: int)
    ensures SavedTablePath(outDir, base, sourcePath, attemptNum, totalMc, false) ==
            SavedTablePath(outDir, base, sourcePath, attemptNum, totalMc, true) + ".json"
  {
  }

  /** Joining a relative name without '/' puts it directly in `dir`. */
  lemma JoinRelative(dir: string, name: string)
    requires 0 < |name| && '/' !in name
    ensures Join(dir, name) == dir + name || Join(dir, name) == dir + "/" + name
  {
    assert name[0] in name;
  }


}
