/** Maildir naming: a message file's name and its flags, unique names, and folders as directories
    (crates/mail-archive/src/maildir.rs). */
module Maildir {
  import opened Options
  import opened Sorting

  /** A letter of an info suffix, in the order the letters are. */
  datatype Flag = Draft | Flagged | Passed | Replied | Seen | Trashed

  function Rank(flag: Flag): int {
    match flag
    case Draft => 0 case Flagged => 1 case Passed => 2 case Replied => 3 case Seen => 4 case Trashed => 5
  }

  function Letter(flag: Flag): char {
    match flag
    case Draft => 'D' case Flagged => 'F' case Passed => 'P' case Replied => 'R' case Seen => 'S' case Trashed => 'T'
  }

  function FromLetter(c: char): Option<Flag> {
    match c
    case 'D' => Some(Draft) case 'F' => Some(Flagged) case 'P' => Some(Passed)
    case 'R' => Some(Replied) case 'S' => Some(Seen) case 'T' => Some(Trashed)
    case _ => None
  }

  function Tidy(flags: seq<Flag>): seq<Flag> {
    SortDedup(flags, Rank)
  }

  datatype Name = Name(unique: string, flags: seq<Flag>)

  /** Where `c` last is. */
  function LastIndex(s: string, c: char): (at: Option<nat>)
    ensures at.Some? ==> at.value < |s| && s[at.value] == c && c !in s[at.value + 1..]
    ensures at.None? ==> c !in s
  {
    if s == "" then None
    else if s[|s| - 1] == c then Some(|s| - 1)
    else
      var at := LastIndex(s[..|s| - 1], c);
      assert s == s[..|s| - 1] + [s[|s| - 1]];
      assert at.Some? ==> s[at.value + 1..] == s[..|s| - 1][at.value + 1..] + [s[|s| - 1]];
      at
  }

  function Flags(letters: string): seq<Flag> {
    if letters == "" then [] else
    (match FromLetter(letters[0]) case Some(flag) => [flag] case None => []) + Flags(letters[1..])
  }

  function Letters(flags: seq<Flag>): string {
    if flags == [] then "" else [Letter(flags[0])] + Letters(flags[1..])
  }

  /** Where the info suffix would begin: at the last `:`, or else the last `;`, or else the last `!`. */
  function Separator(file: string): Option<nat> {
    if LastIndex(file, ':').Some? then LastIndex(file, ':')
    else if LastIndex(file, ';').Some? then LastIndex(file, ';')
    else LastIndex(file, '!')
  }

  predicate IsInfo(info: string) {
    |info| >= 2 && info[0] == '2' && info[1] == ','
  }

  /** The unique part and the flags a file's name stands for. */
  function ParseName(file: string): Name {
    var at := Separator(file);
    if at.Some? && at.value < |file| && IsInfo(file[at.value + 1..])
    then Name(file[..at.value], Tidy(Flags(file[at.value + 3..])))
    else Name(file, [])
  }

  /** The name written: the unique part, `info`, the version 2 mark and the flags' letters in order. */
  function FileName(unique: string, flags: seq<Flag>, info: char): string {
    unique + ([info] + ("2," + Letters(Tidy(flags))))
  }

  // ---------- names

  lemma {:induction false} FlagsOfLetters(flags: seq<Flag>)
    ensures Flags(Letters(flags)) == flags
    ensures forall c :: c in Letters(flags) ==> c in "DFPRST"
  {
    if flags != [] {
      FlagsOfLetters(flags[1..]);
      assert Letters(flags)[1..] == Letters(flags[1..]);
      assert FromLetter(Letter(flags[0])) == Some(flags[0]);
      assert Letter(flags[0]) in "DFPRST" by { var all := "DFPRST"; assert all[0] == 'D' && all[1] == 'F' && all[2] == 'P' && all[3] == 'R' && all[4] == 'S' && all[5] == 'T'; }
    }
  }

  lemma {:induction false} LastIndexIs(s: string, c: char, at: nat)
    requires at < |s| && s[at] == c && c !in s[at + 1..]
    ensures LastIndex(s, c) == Some(at)
  {
    if at < |s| - 1 {
      assert s[|s| - 1] == s[at + 1..][|s| - at - 2];
      assert s[..|s| - 1][at + 1..] == s[at + 1..][..|s| - at - 2];
      LastIndexIs(s[..|s| - 1], c, at);
    }
  }

  /** Flags tidied are in order and stay so. */
  lemma TidyTwice(flags: seq<Flag>)
    ensures Tidy(Tidy(flags)) == Tidy(flags) && Elements(Tidy(flags)) == Elements(flags)
  {
    SortDedupIs(flags, Rank);
    SortDedupIs(Tidy(flags), Rank);
    AscendingUnique(Tidy(Tidy(flags)), Tidy(flags), Rank);
  }

  /** What a name with its separator found is read as. */
  lemma ParsesAt(unique: string, flags: seq<Flag>, info: char)
    requires Separator(FileName(unique, flags, info)) == Some(|unique|)
    ensures ParseName(FileName(unique, flags, info)) == Name(unique, Tidy(flags))
  {
    var letters := Letters(Tidy(flags));
    var tail := "2," + letters;
    var file := FileName(unique, flags, info);
    assert file[..|unique|] == unique && file[|unique| + 1..] == tail;
    assert tail[2..] == letters && file[|unique| + 3..] == tail[2..];
    FlagsOfLetters(Tidy(flags));
    TidyTwice(flags);
  }

  /** Where the separator is a colon every name is read back: the unique part, whatever it is, and the flags in order,
      without repeats. Where it is a semicolon, a name is read back exactly when the unique part has no colon. */
  lemma NameRoundTrip(unique: string, flags: seq<Flag>)
    ensures ParseName(FileName(unique, flags, ':')) == Name(unique, Tidy(flags))
    ensures ParseName(FileName(unique, flags, ';')) == Name(unique, Tidy(flags)) <==> ':' !in unique
  {
    FlagsOfLetters(Tidy(flags));
    var tail := "2," + Letters(Tidy(flags));
    assert ':' !in tail && ';' !in tail by { NotInTail(Letters(Tidy(flags))); }
    ColonLast(unique, tail, ':');
    ParsesAt(unique, flags, ':');
    if ':' in unique {
      ColonHides(unique, [';'] + tail);
    } else {
      ColonLast(unique, tail, ';');
      assert ':' !in [';'] + tail && ':' !in FileName(unique, flags, ';');
      ParsesAt(unique, flags, ';');
    }
  }

  /** A colon in what is before the separator is taken for it. */
  lemma ColonHides(unique: string, tail: string)
    requires ':' in unique && ':' !in tail && tail != ""
    ensures |ParseName(unique + tail).unique| != |unique|
  {
    var at := LastIndex(unique, ':').value;
    assert (unique + tail)[at + 1..] == unique[at + 1..] + tail;
    LastIndexIs(unique + tail, ':', at);
  }

  lemma NotInTail(letters: string)
    requires forall c :: c in letters ==> c in "DFPRST"
    ensures ':' !in "2," + letters && ';' !in "2," + letters
  {
    assert ':' !in "DFPRST" && ';' !in "DFPRST" && ':' !in "2," && ';' !in "2,";
  }

  lemma ColonLast(unique: string, tail: string, info: char)
    requires info !in tail
    ensures LastIndex(unique + ([info] + tail), info) == Some(|unique|)
  {
    var file := unique + ([info] + tail);
    assert file[|unique| + 1..] == tail;
    LastIndexIs(file, info, |unique|);
  }

  /** The separator of the third kind: a name written with it is read back exactly when neither of the others is in what is before
      it. */
  lemma OldNameRoundTrip(unique: string, flags: seq<Flag>)
    ensures ParseName(FileName(unique, flags, '!')) == Name(unique, Tidy(flags)) <==> ':' !in unique && ';' !in unique
  {
    FlagsOfLetters(Tidy(flags));
    var tail := "2," + Letters(Tidy(flags));
    NotInTail(Letters(Tidy(flags)));
    if ':' in unique {
      ColonHides(unique, ['!'] + tail);
    } else if ';' in unique {
      SemicolonHides(unique, ['!'] + tail);
    } else {
      ColonLast(unique, tail, '!');
      assert ':' !in FileName(unique, flags, '!') && ';' !in FileName(unique, flags, '!');
      ParsesAt(unique, flags, '!');
    }
  }

  lemma SemicolonHides(unique: string, tail: string)
    requires ';' in unique && ':' !in unique && ':' !in tail && ';' !in tail && tail != ""
    ensures |ParseName(unique + tail).unique| != |unique|
  {
    var at := LastIndex(unique, ';').value;
    AfterIs(unique, tail, at + 1);
    NotInBoth(unique[at + 1..], tail, ';');
    LastIndexIs(unique + tail, ';', at);
    NotInBoth(unique, tail, ':');
    assert LastIndex(unique + tail, ':').None?;
  }

  lemma AfterIs(a: string, b: string, k: nat)
    requires k <= |a|
    ensures (a + b)[k..] == a[k..] + b
  {
  }

  lemma NotInBoth(a: string, b: string, c: char)
    requires c !in a && c !in b
    ensures c !in a + b
  {
  }

  /** A name with no separator, or with something else than the mark of version 2 after it, is all unique part and has no flags. */
  lemma PlainName(file: string)
    requires match Separator(file)
             case None => true
             case Some(at) => !(at + 2 < |file| && file[at + 1] == '2' && file[at + 2] == ',')
    ensures ParseName(file) == Name(file, [])
  {
  }

  // ---------- the letters

  const IN_ORDER: seq<Flag> := [Draft, Flagged, Passed, Replied, Seen, Trashed]

  lemma TidyInOrder(flags: seq<Flag>)
    ensures Tidy(flags) == Among(IN_ORDER, Tidy(flags)) && forall flag :: flag in Tidy(flags) <==> flag in flags
  {
    SortDedupIs(flags, Rank);
    AllInOrder();
    InThatOrder(IN_ORDER, Tidy(flags), Rank);
    forall flag ensures flag in Tidy(flags) <==> flag in flags {
      assert flag in Elements(Tidy(flags)) <==> flag in Elements(flags);
    }
  }

  lemma AllInOrder()
    ensures Ascending(IN_ORDER, Rank) && forall flag: Flag :: flag in Elements(IN_ORDER)
  {
    forall flag: Flag ensures flag in IN_ORDER {
      var all := IN_ORDER;
      assert all[0] == Draft && all[1] == Flagged && all[2] == Passed && all[3] == Replied && all[4] == Seen && all[5] == Trashed;
      assert flag == Draft || flag == Flagged || flag == Passed || flag == Replied || flag == Seen || flag == Trashed;
    }
  }

  lemma {:induction false} FlagsHave(letters: string)
    ensures (Draft in Flags(letters) <==> 'D' in letters) && (Flagged in Flags(letters) <==> 'F' in letters)
    ensures (Passed in Flags(letters) <==> 'P' in letters) && (Replied in Flags(letters) <==> 'R' in letters)
    ensures (Seen in Flags(letters) <==> 'S' in letters) && (Trashed in Flags(letters) <==> 'T' in letters)
  {
    if letters != "" { FlagsHave(letters[1..]); }
  }

  lemma LettersParse(unique: string, letters: string)
    requires ':' !in letters
    ensures ParseName(unique + ([':'] + ("2," + letters))) == Name(unique, Tidy(Flags(letters)))
  {
    var tail := "2," + letters;
    var file := unique + ([':'] + tail);
    ColonLast(unique, tail, ':');
    TailAfter(unique, ':', tail);
    assert tail[2..] == letters && file[|unique| + 3..] == tail[2..];
  }

  lemma TailAfter(unique: string, info: char, tail: string)
    ensures var file := unique + ([info] + tail); file[..|unique|] == unique && file[|unique| + 1..] == tail
  {
  }

  /** The letters after a name's separator are read in any order and any number, and others passed over: `D` for a draft, `F` for
      flagged, `P` for passed on, `R` for replied to, `S` for seen and `T` for trash. The flags are in that order, once each. */
  lemma LettersRead(unique: string, letters: string)
    requires ':' !in letters
    ensures var name := ParseName(unique + ([':'] + ("2," + letters)));
            && name.unique == unique && name.flags == Among(IN_ORDER, name.flags)
            && (Draft in name.flags <==> 'D' in letters) && (Flagged in name.flags <==> 'F' in letters)
            && (Passed in name.flags <==> 'P' in letters) && (Replied in name.flags <==> 'R' in letters)
            && (Seen in name.flags <==> 'S' in letters) && (Trashed in name.flags <==> 'T' in letters)
  {
    LettersParse(unique, letters);
    FlagsHave(letters);
    TidyInOrder(Flags(letters));
  }

  lemma {:induction false} LettersHave(flags: seq<Flag>)
    ensures ('D' in Letters(flags) <==> Draft in flags) && ('F' in Letters(flags) <==> Flagged in flags)
    ensures ('P' in Letters(flags) <==> Passed in flags) && ('R' in Letters(flags) <==> Replied in flags)
    ensures ('S' in Letters(flags) <==> Seen in flags) && ('T' in Letters(flags) <==> Trashed in flags)
  {
    if flags != [] {
      assert flags == [flags[0]] + flags[1..];
      LettersHave(flags[1..]);
    }
  }

  lemma {:induction false} LettersAmong(order: seq<Flag>, flags: seq<Flag>)
    ensures Letters(Among(order, flags)) == Among(Letters(order), Letters(flags))
  {
    if order != [] {
      var first, rest := order[0], order[1..];
      LettersAmong(rest, flags);
      assert Letters(order)[1..] == Letters(rest);
      LetterIn(first, flags);
      OneMoreLetter(first, Among(rest, flags), first in flags);
    }
  }

  lemma LetterIn(flag: Flag, flags: seq<Flag>)
    ensures Letter(flag) in Letters(flags) <==> flag in flags
  {
    LettersHave(flags);
  }

  lemma OneMoreLetter(flag: Flag, flags: seq<Flag>, has: bool)
    ensures Letters((if has then [flag] else []) + flags) == (if has then [Letter(flag)] else []) + Letters(flags)
  {
    if has {
      assert ([flag] + flags)[1..] == flags;
    } else {
      assert [] + flags == flags;
    }
  }

  lemma LettersInOrder()
    ensures Letters(IN_ORDER) == "DFPRST"
  {
    assert IN_ORDER[1..] == [Flagged, Passed, Replied, Seen, Trashed];
    assert IN_ORDER[1..][1..] == [Passed, Replied, Seen, Trashed];
    assert [Passed, Replied, Seen, Trashed][1..] == [Replied, Seen, Trashed];
    assert [Replied, Seen, Trashed][1..] == [Seen, Trashed] && [Seen, Trashed][1..] == [Trashed] && [Trashed][1..] == [];
  }

  /** And they are written so, in that order, once each. */
  lemma LettersWritten(unique: string, flags: seq<Flag>, info: char) returns (letters: string)
    ensures FileName(unique, flags, info) == unique + ([info] + ("2," + letters)) && letters == Among("DFPRST", letters)
    ensures ('D' in letters <==> Draft in flags) && ('F' in letters <==> Flagged in flags)
    ensures ('P' in letters <==> Passed in flags) && ('R' in letters <==> Replied in flags)
    ensures ('S' in letters <==> Seen in flags) && ('T' in letters <==> Trashed in flags)
  {
    letters := Letters(Tidy(flags));
    TidyInOrder(flags);
    LettersHave(Tidy(flags));
    LettersAmong(IN_ORDER, Tidy(flags));
    LettersInOrder();
  }

  // ---------- unique names

  /** The parts a unique name is put together from. `secs` may be before 1970. */
  datatype Parts = Parts(secs: int, micros: nat, pid: nat, count: nat, host: string)

  function Digit(n: int): char
    requires 0 <= n < 10
  {
    "0123456789"[n]
  }

  function Decimal(n: nat): string {
    if n < 10 then [Digit(n)] else Decimal(n / 10) + [Digit(n % 10)]
  }

  function Signed(n: int): string {
    if n < 0 then "-" + Decimal(-n) else Decimal(n)
  }

  function Replace(s: string, c: char, with: string): string {
    if s == "" then "" else (if s[0] == c then with else [s[0]]) + Replace(s[1..], c, with)
  }

  function Escaped(host: string): string {
    Replace(Replace(host, '/', "\\057"), ':', "\\072")
  }

  /** The host with its `/` and `:` written as escapes, or `localhost` where there is none. */
  function HostWritten(host: string): string {
    if Escaped(host) == "" then "localhost" else Escaped(host)
  }

  lemma {:induction false} ReplaceConcat(a: string, b: string, c: char, with: string)
    ensures Replace(a + b, c, with) == Replace(a, c, with) + Replace(b, c, with)
  {
    if a == "" {
      assert a + b == b;
    } else {
      assert (a + b)[1..] == a[1..] + b;
      ReplaceConcat(a[1..], b, c, with);
    }
  }

  lemma {:induction false} ReplaceNone(s: string, c: char, with: string)
    requires c !in s
    ensures Replace(s, c, with) == s
  {
    if s != "" {
      assert s == [s[0]] + s[1..];
      ReplaceNone(s[1..], c, with);
    }
  }

  /** Each slash of a host is written `\\057` and each colon `\\072`, and nothing else of it is changed. */
  lemma HostEscaped(a: string, b: string, host: string)
    ensures Escaped(a + ("/" + b)) == Escaped(a) + ("\\057" + Escaped(b))
    ensures Escaped(a + (":" + b)) == Escaped(a) + ("\\072" + Escaped(b))
    ensures '/' !in host && ':' !in host ==> Escaped(host) == host && (host != "" ==> HostWritten(host) == host)
    ensures HostWritten("") == "localhost"
  {
    EscapedConcat(a, "/" + b);
    EscapedConcat("/", b);
    EscapedConcat(a, ":" + b);
    EscapedConcat(":", b);
    EscapedMarks();
    if '/' !in host && ':' !in host {
      ReplaceNone(host, '/', "\\057");
      ReplaceNone(host, ':', "\\072");
    }
  }

  lemma EscapedConcat(a: string, b: string)
    ensures Escaped(a + b) == Escaped(a) + Escaped(b)
  {
    ReplaceConcat(a, b, '/', "\\057");
    ReplaceConcat(Replace(a, '/', "\\057"), Replace(b, '/', "\\057"), ':', "\\072");
  }

  lemma EscapedMarks()
    ensures Escaped("/") == "\\057" && Escaped(":") == "\\072"
  {
    assert "/"[1..] == "" && ":"[1..] == "";
    assert Replace("/", '/', "\\057") == "\\057" + "" == "\\057";
    ReplaceNone("\\057", ':', "\\072");
    ReplaceNone(":", '/', "\\057");
    assert Replace(":", ':', "\\072") == "\\072" + "" == "\\072";
  }

  function Unique(parts: Parts): string {
    Signed(parts.secs) + (".M" + (Decimal(parts.micros) + ("P" + (Decimal(parts.pid) + ("Q"
      + (Decimal(parts.count) + ("." + HostWritten(parts.host))))))))
  }

  predicate IsDigit(c: char) {
    '0' <= c <= '9'
  }

  predicate Digits(s: string) {
    forall i :: 0 <= i < |s| ==> IsDigit(s[i])
  }

  lemma {:induction false} DecimalDigits(n: nat)
    ensures Digits(Decimal(n)) && Decimal(n) != ""
  {
    if n >= 10 { DecimalDigits(n / 10); }
    DigitIs(n % 10);
    if n < 10 { DigitIs(n); }
  }

  lemma DigitIs(n: int)
    requires 0 <= n < 10
    ensures IsDigit(Digit(n)) && Digit(n) as int == 48 + n
  {
  }

  /** Different numbers are written differently. */
  lemma {:induction false} DecimalInjective(m: nat, n: nat)
    requires Decimal(m) == Decimal(n)
    ensures m == n
  {
    DigitIs(m % 10);
    DigitIs(n % 10);
    if m < 10 { DigitIs(m); }
    if n < 10 { DigitIs(n); }
    DecimalDigits(m / 10);
    DecimalDigits(n / 10);
    if m >= 10 && n >= 10 {
      assert Decimal(m)[|Decimal(m)| - 1] == Digit(m % 10) && Decimal(n)[|Decimal(n)| - 1] == Digit(n % 10);
      assert Decimal(m)[..|Decimal(m)| - 1] == Decimal(m / 10) && Decimal(n)[..|Decimal(n)| - 1] == Decimal(n / 10);
      DecimalInjective(m / 10, n / 10);
    } else {
      assert |Decimal(m)| >= 2 <==> m >= 10;
      assert |Decimal(n)| >= 2 <==> n >= 10;
    }
  }

  function TenTo(k: nat): nat {
    if k == 0 then 1 else 10 * TenTo(k - 1)
  }

  /** What digits are worth by their places. */
  function Worth(s: string): int {
    if s == "" then 0 else (s[0] as int - 48) * TenTo(|s| - 1) + Worth(s[1..])
  }

  lemma {:induction false} WorthMore(s: string, c: char)
    ensures Worth(s + [c]) == 10 * Worth(s) + (c as int - 48)
  {
    if s == "" {
      assert s + [c] == [c] && [c][1..] == "";
    } else {
      assert (s + [c])[1..] == s[1..] + [c];
      WorthMore(s[1..], c);
    }
  }

  /** A number is written as digits worth it, with no zero before them. */
  lemma {:induction false} DecimalIsWorth(n: nat)
    ensures Worth(Decimal(n)) == n && (n > 0 ==> Decimal(n)[0] != '0')
  {
    DigitIs(n % 10);
    if n < 10 {
      DigitIs(n);
      WorthMore("", Digit(n));
      assert "" + [Digit(n)] == [Digit(n)];
    } else {
      DecimalIsWorth(n / 10);
      DecimalDigits(n / 10);
      WorthMore(Decimal(n / 10), Digit(n % 10));
    }
  }

  /** How many digits come first. */
  function Leading(s: string): nat {
    if s == "" || !IsDigit(s[0]) then 0 else 1 + Leading(s[1..])
  }

  lemma {:induction false} LeadingIs(a: string, x: string)
    requires Digits(a) && x != "" && !IsDigit(x[0])
    ensures Leading(a + x) == |a|
  {
    if a == "" {
      assert a + x == x;
    } else {
      assert (a + x)[1..] == a[1..] + x;
      LeadingIs(a[1..], x);
    }
  }

  /** Digits end where the first character that is not one is. */
  lemma DigitsPrefix(a: string, b: string, x: string, y: string)
    requires Digits(a) && Digits(b) && a + x == b + y && x != "" && y != "" && !IsDigit(x[0]) && !IsDigit(y[0])
    ensures a == b && x == y
  {
    LeadingIs(a, x);
    LeadingIs(b, y);
    assert (a + x)[..|a|] == a && (b + y)[..|b|] == b && (a + x)[|a|..] == x && (b + y)[|b|..] == y;
  }

  lemma SignPrefix(a: string, b: string, x: string, y: string, minus: bool, minus': bool)
    requires a != "" && b != "" && a[0] != '-' && b[0] != '-'
    requires (if minus then "-" + a else a) + x == (if minus' then "-" + b else b) + y
    ensures minus == minus' && a + x == b + y
  {
    assert ((if minus then "-" + a else a) + x)[0] == if minus then '-' else a[0];
    assert ((if minus' then "-" + b else b) + y)[0] == if minus' then '-' else b[0];
    if minus && minus' {
      assert ("-" + a + x)[1..] == a + x && ("-" + b + y)[1..] == b + y;
    }
  }

  lemma SignedPrefix(m: int, n: int, x: string, y: string)
    requires Signed(m) + x == Signed(n) + y && x != "" && y != "" && !IsDigit(x[0]) && !IsDigit(y[0])
    ensures m == n && x == y
  {
    var m', n' := if m < 0 then -m else m, if n < 0 then -n else n;
    DecimalDigits(m');
    DecimalDigits(n');
    SignPrefix(Decimal(m'), Decimal(n'), x, y, m < 0, n < 0);
    NumberPrefix(m', n', x, y);
  }

  lemma NumberPrefix(m: nat, n: nat, x: string, y: string)
    requires Decimal(m) + x == Decimal(n) + y && x != "" && y != "" && !IsDigit(x[0]) && !IsDigit(y[0])
    ensures m == n && x == y
  {
    DecimalDigits(m);
    DecimalDigits(n);
    DigitsPrefix(Decimal(m), Decimal(n), x, y);
    DecimalInjective(m, n);
  }

  lemma SamePrefix(p: string, x: string, y: string)
    requires p + x == p + y
    ensures x == y
  {
    assert (p + x)[|p|..] == x && (p + y)[|p|..] == y;
  }

  /** These digits say that number. */
  predicate IsNumeral(digits: string, n: int) {
    digits != "" && Digits(digits) && Worth(digits) == n
  }

  lemma DecimalReads(n: nat)
    ensures IsNumeral(Decimal(n), n)
  {
    DecimalDigits(n);
    DecimalIsWorth(n);
  }

  /** A name made says, in this order, the seconds, after `.M` the microseconds, after `P` the process, after `Q` the count, and
      after a dot the host. */
  lemma UniqueSays(parts: Parts) returns (secs: string, micros: string, pid: string, count: string)
    ensures Unique(parts) == secs + (".M" + (micros + ("P" + (pid + ("Q" + (count + ("." + HostWritten(parts.host))))))))
    ensures if parts.secs >= 0 then IsNumeral(secs, parts.secs) else secs != "" && secs[0] == '-' && IsNumeral(secs[1..], -parts.secs)
    ensures IsNumeral(micros, parts.micros) && IsNumeral(pid, parts.pid) && IsNumeral(count, parts.count)
  {
    secs, micros, pid, count := Signed(parts.secs), Decimal(parts.micros), Decimal(parts.pid), Decimal(parts.count);
    DecimalReads(if parts.secs < 0 then -parts.secs else parts.secs);
    DecimalReads(parts.micros);
    DecimalReads(parts.pid);
    DecimalReads(parts.count);
  }

  /** Names made from different moments, processes or counts are different, whatever the hosts. */
  lemma UniqueInjective(a: Parts, b: Parts)
    requires Unique(a) == Unique(b)
    ensures a.secs == b.secs && a.micros == b.micros && a.pid == b.pid && a.count == b.count
    ensures HostWritten(a.host) == HostWritten(b.host)
  {
    var a4, b4 := "." + HostWritten(a.host), "." + HostWritten(b.host);
    var a3, b3 := "Q" + (Decimal(a.count) + a4), "Q" + (Decimal(b.count) + b4);
    var a2, b2 := "P" + (Decimal(a.pid) + a3), "P" + (Decimal(b.pid) + b3);
    var a1, b1 := ".M" + (Decimal(a.micros) + a2), ".M" + (Decimal(b.micros) + b2);
    SignedPrefix(a.secs, b.secs, a1, b1);
    SamePrefix(".M", Decimal(a.micros) + a2, Decimal(b.micros) + b2);
    NumberPrefix(a.micros, b.micros, a2, b2);
    SamePrefix("P", Decimal(a.pid) + a3, Decimal(b.pid) + b3);
    NumberPrefix(a.pid, b.pid, a3, b3);
    SamePrefix("Q", Decimal(a.count) + a4, Decimal(b.count) + b4);
    NumberPrefix(a.count, b.count, a4, b4);
    SamePrefix(".", HostWritten(a.host), HostWritten(b.host));
  }

  lemma {:induction false} ReplaceRemoves(s: string, c: char, with: string, other: char)
    requires other !in with && (other == c || other !in s)
    ensures other !in Replace(s, c, with)
  {
    if s != "" {
      assert s == [s[0]] + s[1..];
      ReplaceRemoves(s[1..], c, with, other);
    }
  }

  lemma DigitsHold(s: string, c: char)
    requires Digits(s) && !IsDigit(c)
    ensures c !in s
  {
  }

  /** No unique name holds a colon or a slash. */
  lemma UniqueClean(parts: Parts, c: char)
    requires c == ':' || c == '/'
    ensures c !in Unique(parts)
  {
    var magnitude := if parts.secs < 0 then -parts.secs else parts.secs;
    DecimalDigits(magnitude);
    DecimalDigits(parts.micros);
    DecimalDigits(parts.pid);
    DecimalDigits(parts.count);
    DigitsHold(Decimal(magnitude), c);
    DigitsHold(Decimal(parts.micros), c);
    DigitsHold(Decimal(parts.pid), c);
    DigitsHold(Decimal(parts.count), c);
    HostClean(parts.host, c);
    assert c !in "-" && c !in ".M" && c !in "P" && c !in "Q" && c !in ".";
  }

  lemma HostClean(host: string, c: char)
    requires c == ':' || c == '/'
    ensures c !in HostWritten(host)
  {
    var once := Replace(host, '/', "\\057");
    assert c !in "\\057" && c !in "\\072" && c !in "localhost";
    if c == '/' { ReplaceRemoves(host, '/', "\\057", c); }
    ReplaceRemoves(once, ':', "\\072", c);
  }

  /** A name made for a message is read back on every platform. */
  lemma UniqueNameRoundTrip(parts: Parts, flags: seq<Flag>, info: char)
    requires info == ':' || info == ';'
    ensures ParseName(FileName(Unique(parts), flags, info)) == Name(Unique(parts), Tidy(flags))
  {
    UniqueClean(parts, ':');
    NameRoundTrip(Unique(parts), flags);
  }

  // ---------- flags

  datatype SystemFlag = SSeen | SAnswered | SFlagged | SDraft

  function SystemRank(flag: SystemFlag): int {
    match flag
    case SSeen => 0 case SAnswered => 1 case SFlagged => 2 case SDraft => 3
  }

  datatype Sub = New | Cur

  function FlagOf(flag: SystemFlag): Flag {
    match flag
    case SSeen => Seen case SAnswered => Replied case SFlagged => Flagged case SDraft => Draft
  }

  /** One flag for each system flag, in order and once each. */
  function FlagsOf(system: seq<SystemFlag>): seq<Flag> {
    Tidy(FlagsFor(system))
  }

  /** What a flag says of a message found under `sub`, if it says anything. */
  function Says(flag: Flag, sub: Sub): Option<SystemFlag> {
    match flag
    case Seen => if sub == Cur then Some(SSeen) else None
    case Flagged => Some(SFlagged)
    case Replied => Some(SAnswered)
    case Draft => Some(SDraft)
    case Passed => None
    case Trashed => None
  }

  /** The system flags a message found under `sub` is placed with, and whether it belongs in the trash. */
  method PlacedFlags(sub: Sub, flags: seq<Flag>) returns (system: seq<SystemFlag>, trash: bool)
    ensures Ascending(system, SystemRank)
    ensures forall s :: s in Elements(system) <==> exists f :: f in flags && Says(f, sub) == Some(s)
    ensures trash <==> Trashed in flags
    ensures system == Among([SSeen, SAnswered, SFlagged, SDraft], system)
    ensures (SSeen in system <==> sub == Cur && Seen in flags) && (SAnswered in system <==> Replied in flags)
    ensures (SFlagged in system <==> Flagged in flags) && (SDraft in system <==> Draft in flags)
  {
    var pushed: seq<SystemFlag> := [];
    for i := 0 to |flags|
      invariant forall s :: s in Elements(pushed) <==> exists k :: 0 <= k < i && Says(flags[k], sub) == Some(s)
    {
      var says := Says(flags[i], sub);
      if says.Some? {
        ghost var before := pushed;
        pushed := pushed + [says.value];
        assert Elements(pushed) == Elements(before) + {says.value};
      }
    }
    SystemRanked();
    SortDedupIs(pushed, SystemRank);
    system := SortDedup(pushed, SystemRank);
    trash := Trashed in flags;
    forall s | s in Elements(system) ensures exists f :: f in flags && Says(f, sub) == Some(s) {
      var k :| 0 <= k < |flags| && Says(flags[k], sub) == Some(s);
      assert flags[k] in flags;
    }
    SystemInOrder(system);
    SystemHas(sub, flags, system);
  }

  lemma SystemHas(sub: Sub, flags: seq<Flag>, system: seq<SystemFlag>)
    requires forall s :: s in Elements(system) <==> exists f :: f in flags && Says(f, sub) == Some(s)
    ensures (SSeen in system <==> sub == Cur && Seen in flags) && (SAnswered in system <==> Replied in flags)
    ensures (SFlagged in system <==> Flagged in flags) && (SDraft in system <==> Draft in flags)
  {
    assert SSeen in system <==> SSeen in Elements(system);
    assert SAnswered in system <==> SAnswered in Elements(system);
    assert SFlagged in system <==> SFlagged in Elements(system);
    assert SDraft in system <==> SDraft in Elements(system);
    assert Says(Seen, Cur) == Some(SSeen) && Says(Replied, sub) == Some(SAnswered);
    assert Says(Flagged, sub) == Some(SFlagged) && Says(Draft, sub) == Some(SDraft);
  }

  /** System flags in order and once each are in this order. */
  lemma SystemInOrder(system: seq<SystemFlag>)
    requires Ascending(system, SystemRank)
    ensures system == Among([SSeen, SAnswered, SFlagged, SDraft], system)
  {
    var all := [SSeen, SAnswered, SFlagged, SDraft];
    forall s: SystemFlag ensures s in all {
      assert all[0] == SSeen && all[1] == SAnswered && all[2] == SFlagged && all[3] == SDraft;
      assert s == SSeen || s == SAnswered || s == SFlagged || s == SDraft;
    }
    SystemRanked();
    assert Elements(system) <= Elements(all);
    InThatOrder(all, system, SystemRank);
  }

  lemma SystemRanked()
    ensures Ranked(SystemRank)
  {
  }

  function FlagsFor(system: seq<SystemFlag>): (flags: seq<Flag>)
    ensures |flags| == |system| && forall i :: 0 <= i < |system| ==> flags[i] == FlagOf(system[i])
  {
    seq(|system|, i requires 0 <= i < |system| => FlagOf(system[i]))
  }

  /** Whatever flags have the elements of the ones written say the system flags there were. */
  lemma SaysBack(system: seq<SystemFlag>, flags: seq<Flag>, s: SystemFlag)
    requires Elements(flags) == Elements(FlagsFor(system))
    ensures s in system <==> exists f :: f in flags && Says(f, Cur) == Some(s)
  {
    var mapped := FlagsFor(system);
    if s in system {
      var i :| 0 <= i < |system| && system[i] == s;
      assert mapped[i] in Elements(flags) && Says(mapped[i], Cur) == Some(s);
    }
    if f :| f in flags && Says(f, Cur) == Some(s) {
      assert f in Elements(mapped);
      var i :| 0 <= i < |mapped| && mapped[i] == f;
      assert system[i] == s;
    }
  }

  /** A name whose separator is found again: any with a colon, and with a semicolon one that has no colon. */
  predicate Separates(unique: string, info: char) {
    info == ':' || (info == ';' && ':' !in unique)
  }

  lemma FlagsInName(system: seq<SystemFlag>, unique: string, info: char)
    requires Separates(unique, info)
    ensures Elements(ParseName(FileName(unique, FlagsOf(system), info)).flags) == Elements(FlagsFor(system))
  {
    NameRoundTrip(unique, FlagsOf(system));
    TidyTwice(FlagsFor(system));
    TidyTwice(FlagsOf(system));
  }

  /** System flags survive the whole trip: to Maildir letters, into a name, out of it, and placed from `cur`. Any
      flags in order that are what the placement says are the ones that set out, in order and without repeats. */
  lemma SystemFlagsRoundTrip(system: seq<SystemFlag>, unique: string, info: char, back: seq<SystemFlag>)
    requires Separates(unique, info) && Ascending(back, SystemRank)
    requires var flags := ParseName(FileName(unique, FlagsOf(system), info)).flags;
             forall s :: s in Elements(back) <==> exists f :: f in flags && Says(f, Cur) == Some(s)
    ensures back == SortDedup(system, SystemRank)
  {
    FlagsInName(system, unique, info);
    var flags := ParseName(FileName(unique, FlagsOf(system), info)).flags;
    SystemRanked();
    SortDedupIs(system, SystemRank);
    forall s ensures s in Elements(back) <==> s in Elements(system) {
      SaysBack(system, flags, s);
    }
    AscendingUnique(back, SortDedup(system, SystemRank), SystemRank);
  }

  /** A message written under a name made for it, with either platform's separator, and found again in `cur`: its system
      flags are the ones it had, in order and once each, and it is not in the trash. */
  method FoundAgain(parts: Parts, system: seq<SystemFlag>, info: char) returns (back: seq<SystemFlag>, trash: bool)
    requires info == ':' || info == ';'
    ensures back == SortDedup(system, SystemRank) && !trash
  {
    var unique := Unique(parts);
    UniqueClean(parts, ':');
    var flags := ParseName(FileName(unique, FlagsOf(system), info)).flags;
    back, trash := PlacedFlags(Cur, flags);
    SystemFlagsRoundTrip(system, unique, info, back);
    FlagsInName(system, unique, info);
    NoTrash(system, flags);
  }

  lemma NoTrash(system: seq<SystemFlag>, flags: seq<Flag>)
    requires Elements(flags) == Elements(FlagsFor(system))
    ensures Trashed !in flags
  {
    assert Trashed !in Elements(flags);
  }
}
