/** The high-score file: the line saveHighScore appends, the parse
    getHighScores applies to every line, and the ranked top-ten display. */
module HighScores {
  import opened Sorting

  datatype Option<T> = None | Some(value: T)

  /** One parsed line: the score first, as in the source's pair<int, string>. */
  datatype Entry = Entry(score: int, name: string)

  const INT_MIN: int := -0x8000_0000
  const INT_MAX: int := 0x7fff_ffff

  /** The text shown when there is nothing to rank. */
  const NO_SCORES: string := "No high scores yet!"

  /** At most this many entries are displayed. */
  const MAX_SHOWN: nat := 10

  predicate IsInt32(n: int)
  {
    INT_MIN <= n <= INT_MAX
  }

  // ---------------------------------------------------------------------
  // Characters and stream extraction

  /** The characters std::isspace accepts in the C locale. */
  predicate IsSpace(c: char)
  {
    c == ' ' || c == '\t' || c == '\n' || c == '\r' || c == '\U{0B}' || c == '\U{0C}'
  }

  predicate IsDigit(c: char)
  {
    '0' <= c <= '9'
  }

  /** The index of the first c in s. */
  function Find(s: string, c: char): (r: Option<nat>)
    ensures r.None? <==> c !in s
    ensures r.Some? ==> r.value < |s| && s[r.value] == c && c !in s[..r.value]
  {
    if s == [] then None
    else if s[0] == c then Some(0)
    else
      match Find(s[1..], c)
      case None => None
      case Some(i) =>
        assert s[..i + 1] == [s[0]] + s[1..][..i];
        Some(i + 1)
  }

  /** getline(stream, out, delim) on the unread text rest: it fails when
      nothing is left; otherwise it yields the text before the first delim
      (or all of rest) and what follows the delim. */
  function GetLine(rest: string, delim: char): (r: Option<(string, string)>)
    ensures r.None? <==> rest == []
    ensures r.Some? ==> |r.value.1| < |rest|
  {
    if rest == [] then None
    else
      match Find(rest, delim)
      case None => Some((rest, []))
      case Some(i) =>
        assert rest == rest[..i] + [delim] + rest[i + 1..];
        Some((rest[..i], rest[i + 1..]))
  }

  /** The text after the leading whitespace. */
  function SkipSpace(s: string): (r: string)
    ensures |r| <= |s| && r == s[|s| - |r|..]
    ensures r != [] ==> !IsSpace(r[0])
    ensures forall i :: 0 <= i < |s| - |r| ==> IsSpace(s[i])
  {
    if s != [] && IsSpace(s[0]) then SkipSpace(s[1..]) else s
  }

  /** The length of the longest prefix without whitespace. */
  function WordLength(s: string): (k: nat)
    ensures k <= |s|
    ensures forall i :: 0 <= i < k ==> !IsSpace(s[i])
    ensures k < |s| ==> IsSpace(s[k])
  {
    if s != [] && !IsSpace(s[0]) then 1 + WordLength(s[1..]) else 0
  }

  /** stream >> word: skip whitespace, then read a non-empty run without
      whitespace; it fails when only whitespace is left. */
  function Word(rest: string): (r: Option<(string, string)>)
    ensures r.Some? ==> r.value.0 != [] && forall i :: 0 <= i < |r.value.0| ==> !IsSpace(r.value.0[i])
  {
    var t := SkipSpace(rest);
    if t == [] then None
    else
      var k := WordLength(t);
      Some((t[..k], t[k..]))
  }

  // ---------------------------------------------------------------------
  // Decimal integers

  /** The length of the longest prefix of decimal digits. */
  function DigitRun(s: string): (k: nat)
    ensures k <= |s|
    ensures forall i :: 0 <= i < k ==> IsDigit(s[i])
    ensures k < |s| ==> !IsDigit(s[k])
  {
    if s != [] && IsDigit(s[0]) then 1 + DigitRun(s[1..]) else 0
  }

  /** The value of a string of decimal digits, most significant first. */
  function DigitsValue(s: string): (v: nat)
    requires forall i :: 0 <= i < |s| ==> IsDigit(s[i])
  {
    if s == [] then 0
    else
      var d := s[|s| - 1];
      assert IsDigit(d);
      DigitsValue(s[..|s| - 1]) * 10 + (d as int - '0' as int)
  }

  /** std::stoi on a whitespace-free word: an optional sign, then at least one
      digit (trailing characters are ignored); None where stoi throws, that is
      when there is no digit or the value does not fit an int. */
  function Stoi(word: string): (r: Option<int>)
    ensures r.Some? ==> IsInt32(r.value)
  {
    if word != [] && word[0] == '-' then SignedDigits(true, word[1..])
    else if word != [] && word[0] == '+' then SignedDigits(false, word[1..])
    else SignedDigits(false, word)
  }

  /** The value of the leading digits of body, negated when negative is set;
      None when there is no digit or the value does not fit an int. */
  function SignedDigits(negative: bool, body: string): (r: Option<int>)
    ensures r.Some? ==> IsInt32(r.value)
  {
    var k := DigitRun(body);
    if k == 0 then None
    else
      var magnitude: int := DigitsValue(body[..k]);
      var value := if negative then -magnitude else magnitude;
      if IsInt32(value) then Some(value) else None
  }

  /** The decimal digits of n, as std::to_string and operator<< write them. */
  function NatToString(n: nat): (s: string)
    ensures s != [] && forall i :: 0 <= i < |s| ==> IsDigit(s[i])
  {
    var d := [('0' as int + n % 10) as char];
    if n < 10 then d else NatToString(n / 10) + d
  }

  function IntToString(n: int): (s: string)
    ensures s != [] && forall i :: 0 <= i < |s| ==> !IsSpace(s[i]) && s[i] != '"'
  {
    if n < 0 then "-" + NatToString(-n) else NatToString(n)
  }

  /** Reading back the digits of n gives n. */
  lemma {:induction false} NatToStringValue(n: nat)
    ensures DigitsValue(NatToString(n)) == n
    decreases n
  {
    var s := NatToString(n);
    if n >= 10 {
      NatToStringValue(n / 10);
      assert s[..|s| - 1] == NatToString(n / 10);
    }
  }

  /** stoi inverts to_string on every int. */
  lemma StoiOfIntToString(n: int)
    requires IsInt32(n)
    ensures Stoi(IntToString(n)) == Some(n)
  {
    if n < 0 {
      NatToStringValue(-n);
      StoiOfNegative(NatToString(-n));
    } else {
      NatToStringValue(n);
      StoiOfUnsigned(NatToString(n));
    }
  }

  /** stoi reads a run of digits whole. */
  lemma StoiOfUnsigned(digits: string)
    requires digits != [] && forall i :: 0 <= i < |digits| ==> IsDigit(digits[i])
    requires DigitsValue(digits) <= INT_MAX
    ensures Stoi(digits) == Some(DigitsValue(digits))
  {
    AllDigits(digits);
    assert digits[..|digits|] == digits;
    assert !IsDigit('-') && !IsDigit('+');
  }

  /** stoi reads a minus sign and a run of digits whole. */
  lemma StoiOfNegative(digits: string)
    requires digits != [] && forall i :: 0 <= i < |digits| ==> IsDigit(digits[i])
    requires DigitsValue(digits) <= -INT_MIN
    ensures Stoi("-" + digits) == Some(0 - DigitsValue(digits))
  {
    var word := "-" + digits;
    assert word[0] == '-' && word[1..] == digits;
    NegatedDigits(digits);
  }

  lemma NegatedDigits(digits: string)
    requires digits != [] && forall i :: 0 <= i < |digits| ==> IsDigit(digits[i])
    requires DigitsValue(digits) <= -INT_MIN
    ensures SignedDigits(true, digits) == Some(0 - DigitsValue(digits))
  {
    AllDigits(digits);
    var k := DigitRun(digits);
    assert digits[..k] == digits;
    var v: int := DigitsValue(digits);
    assert DigitsValue(digits[..k]) == v;
    assert INT_MIN <= -v <= 0;
  }

  /** A run of digits is read to its end. */
  lemma {:induction false} AllDigits(w: string)
    requires forall i :: 0 <= i < |w| ==> IsDigit(w[i])
    ensures DigitRun(w) == |w|
  {
    if w != [] {
      AllDigits(w[1..]);
    }
  }

  // ---------------------------------------------------------------------
  // Lines

  /** The lines getline(file, line) yields: text split at newlines, with no
      extra empty line after a final newline. */
  function Lines(content: string): (ls: seq<string>)
    decreases |content|
  {
    match GetLine(content, '\n')
    case None => []
    case Some((line, rest)) => [line] + Lines(rest)
  }

  /** What the loop body of getHighScores extracts from one line: an opening
      quote, the name up to the closing quote, a word standing for the colon
      (not checked), and a word that stoi must accept. */
  function ParseLine(line: string): (r: Option<Entry>)
    ensures r.Some? ==> IsInt32(r.value.score) && '"' !in r.value.name
  {
    match GetLine(line, '"')
    case None => None
    case Some((_, afterOpen)) =>
      match GetLine(afterOpen, '"')
      case None => None
      case Some((name, afterName)) =>
        match Word(afterName)
        case None => None
        case Some((_, afterColon)) =>
          match Word(afterColon)
          case None => None
          case Some((scoreWord, _)) =>
            match Stoi(scoreWord)
            case None => None
            case Some(score) => Some(Entry(score, name))
  }

  /** The entries of the lines that parse, in file order. */
  function ParsedEntries(ls: seq<string>): (es: seq<Entry>)
    ensures |es| <= |ls|
  {
    if ls == [] then []
    else
      var prev := ParsedEntries(ls[..|ls| - 1]);
      match ParseLine(ls[|ls| - 1])
      case None => prev
      case Some(e) => prev + [e]
  }

  // ---------------------------------------------------------------------
  // Saving

  /** The name saveHighScore writes: "Player" stands in for an empty one. */
  function SavedName(name: string): (n: string)
    ensures n != []
    ensures name != [] ==> n == name
  {
    if name == [] then "Player" else name
  }

  /** The record saveHighScore writes: the name in double quotes, " : ", and
      the score in decimal. */
  function SavedRecord(name: string, score: int): (r: string)
    ensures '\n' !in name ==> '\n' !in r
  {
    var nm := SavedName(name);
    var digits := IntToString(score);
    assert '\n' !in name ==> '\n' !in nm;
    assert '\n' !in digits;
    "\"" + nm + "\" : " + digits
  }

  /** The line saveHighScore appends: the record and a newline. */
  function SaveLine(name: string, score: int): string
  {
    SavedRecord(name, score) + "\n"
  }

  /** A saved record parses back to the saved pair, for any int score and any
      name without a double quote. */
  lemma SavedRecordParses(name: string, score: int)
    requires IsInt32(score) && '"' !in name
    ensures ParseLine(SavedRecord(name, score)) == Some(Entry(score, SavedName(name)))
  {
    var nm := SavedName(name);
    var digits := IntToString(score);
    var afterName := " : " + digits;
    var afterOpen := nm + ['"'] + afterName;
    assert SavedRecord(name, score) == [] + ['"'] + afterOpen;
    GetLineAtFirstDelimiter([], '"', afterOpen);
    GetLineAtFirstDelimiter(nm, '"', afterName);
    WordsOfScore(digits);
    StoiOfIntToString(score);
  }

  /** The two words after the closing quote: the colon, then the score. */
  lemma WordsOfScore(digits: string)
    requires digits != [] && forall i :: 0 <= i < |digits| ==> !IsSpace(digits[i])
    ensures Word(" : " + digits) == Some((":", " " + digits))
    ensures Word(" " + digits) == Some((digits, []))
  {
    WordOfColon(digits);
    WordOfDigits(digits);
  }

  lemma WordOfColon(digits: string)
    ensures Word(" : " + digits) == Some((":", " " + digits))
  {
    var t := " : " + digits;
    var u := ": " + digits;
    assert t[1..] == u;
    assert SkipSpace(t) == SkipSpace(u) == u;
    assert u[1..] == " " + digits;
    assert WordLength(u[1..]) == 0;
    assert WordLength(u) == 1;
    assert u[..1] == ":";
  }

  lemma WordOfDigits(digits: string)
    requires digits != [] && forall i :: 0 <= i < |digits| ==> !IsSpace(digits[i])
    ensures Word(" " + digits) == Some((digits, []))
  {
    var t := " " + digits;
    assert t[1..] == digits && !IsSpace(digits[0]);
    assert SkipSpace(t) == SkipSpace(digits) == digits;
    AllWord(digits);
    assert digits[..|digits|] == digits && digits[|digits|..] == [];
  }

  /** getline stops at the first delimiter. */
  lemma GetLineAtFirstDelimiter(head: string, delim: char, tail: string)
    requires delim !in head
    ensures GetLine(head + [delim] + tail, delim) == Some((head, tail))
  {
    var s := head + [delim] + tail;
    assert s[|head|] == delim;
    assert s[..|head|] == head;
    assert s[|head| + 1..] == tail;
  }

  /** Without a delimiter getline takes everything that is left. */
  lemma GetLineWithoutDelimiter(rest: string, delim: char)
    requires rest != [] && delim !in rest
    ensures GetLine(rest, delim) == Some((rest, []))
  {
  }

  /** A word without whitespace is read whole. */
  lemma {:induction false} AllWord(w: string)
    requires forall i :: 0 <= i < |w| ==> !IsSpace(w[i])
    ensures WordLength(w) == |w|
  {
    if w != [] {
      AllWord(w[1..]);
    }
  }

  /** Appending a newline-terminated line to a file that is empty or ends in a
      newline adds exactly that line to what getline reads. */
  lemma {:induction false} LinesAppend(content: string, line: string)
    requires content == [] || content[|content| - 1] == '\n'
    requires '\n' !in line
    ensures Lines(content + line + "\n") == Lines(content) + [line]
    decreases |content|
  {
    if content == [] {
      assert content + line + "\n" == line + ['\n'] + [];
      LinesCons(line, []);
    } else {
      var i := Find(content, '\n').value;
      var head, rest := content[..i], content[i + 1..];
      assert content == head + ['\n'] + rest;
      assert rest == [] || rest[|rest| - 1] == '\n';
      calc {
        Lines(content + line + "\n");
        { assert content + line + "\n" == head + ['\n'] + (rest + line + "\n"); }
        Lines(head + ['\n'] + (rest + line + "\n"));
        { LinesCons(head, rest + line + "\n"); }
        [head] + Lines(rest + line + "\n");
        { LinesAppend(rest, line); }
        [head] + (Lines(rest) + [line]);
        { LinesCons(head, rest); }
        Lines(content) + [line];
      }
    }
  }

  /** The first line ends at the first newline. */
  lemma LinesCons(head: string, tail: string)
    requires '\n' !in head
    ensures Lines(head + ['\n'] + tail) == [head] + Lines(tail)
  {
    GetLineAtFirstDelimiter(head, '\n', tail);
  }

  /** saveHighScore then getHighScores: the file gains exactly the saved entry,
      as long as the name has no double quote or newline and the file was
      empty or ended in a newline. */
  lemma SaveThenRead(content: string, name: string, score: int)
    requires content == [] || content[|content| - 1] == '\n'
    requires IsInt32(score) && '"' !in name && '\n' !in name
    ensures ParsedEntries(Lines(content + SaveLine(name, score)))
         == ParsedEntries(Lines(content)) + [Entry(score, SavedName(name))]
  {
    var line := SavedRecord(name, score);
    assert content + SaveLine(name, score) == content + line + "\n";
    LinesAppend(content, line);
    SavedRecordParses(name, score);
    ParsedEntriesSnoc(Lines(content), line);
  }

  /** Parsing one more line adds its entry, when it has one. */
  lemma ParsedEntriesSnoc(ls: seq<string>, line: string)
    ensures ParseLine(line).Some? ==> ParsedEntries(ls + [line]) == ParsedEntries(ls) + [ParseLine(line).value]
    ensures ParseLine(line).None? ==> ParsedEntries(ls + [line]) == ParsedEntries(ls)
  {
    assert (ls + [line])[..|ls|] == ls;
  }

  // ---------------------------------------------------------------------
  // Ranking

  /** std::string's operator<: lexicographic by character. */
  predicate StrLess(a: string, b: string)
    decreases |a|
  {
    if a == [] then b != []
    else if b == [] then false
    else if a[0] != b[0] then a[0] < b[0]
    else StrLess(a[1..], b[1..])
  }

  /** StrLess is a strict total order. */
  lemma {:induction false} StrLessIrreflexive(a: string)
    ensures !StrLess(a, a)
    decreases |a|
  {
    if a != [] {
      StrLessIrreflexive(a[1..]);
    }
  }

  lemma {:induction false} StrLessTrichotomy(a: string, b: string)
    ensures a == b || StrLess(a, b) || StrLess(b, a)
    ensures !(StrLess(a, b) && StrLess(b, a))
    decreases |a|
  {
    if a != [] && b != [] && a[0] == b[0] {
      StrLessTrichotomy(a[1..], b[1..]);
      if a[1..] == b[1..] {
        assert a == [a[0]] + a[1..] && b == [b[0]] + b[1..];
      }
    }
  }

  lemma {:induction false} StrLessTransitive(a: string, b: string, c: string)
    requires StrLess(a, b) && StrLess(b, c)
    ensures StrLess(a, c)
    decreases |a|
  {
    if a != [] && a[0] == b[0] && b[0] == c[0] {
      StrLessTransitive(a[1..], b[1..], c[1..]);
    }
  }

  /** pair<int, string>'s operator<: by score, then by name. */
  predicate EntryLess(p: Entry, q: Entry)
  {
    p.score < q.score || (p.score == q.score && StrLess(p.name, q.name))
  }

  /** The order sort(scores.rbegin(), scores.rend()) leaves behind: p may come
      before q exactly when q < p does not hold in reverse, that is when
      p < q does not hold. */
  function RankedBefore(): (le: (Entry, Entry) -> bool)
    ensures forall p, q :: le(p, q) <==> !EntryLess(p, q)
  {
    (p: Entry, q: Entry) => !EntryLess(p, q)
  }

  /** The ranking order is total, transitive and antisymmetric, so a ranking
      of a multiset of entries is unique. */
  lemma RankingOrder()
    ensures TotalPreorder(RankedBefore())
    ensures Antisymmetric(RankedBefore())
  {
    var le := RankedBefore();
    forall x: Entry, y: Entry
      ensures le(x, y) || le(y, x)
      ensures le(x, y) && le(y, x) ==> x == y
    {
      StrLessTrichotomy(x.name, y.name);
    }
    forall x: Entry, y: Entry, z: Entry | le(x, y) && le(y, z)
      ensures le(x, z)
    {
      StrLessTrichotomy(x.name, y.name);
      StrLessTrichotomy(y.name, z.name);
      StrLessTrichotomy(x.name, z.name);
      if EntryLess(x, z) && x.score == y.score && y.score == z.score {
        StrLessTransitive(z.name, y.name, x.name);
      }
    }
  }

  /** ranking holds the entries highest first. */
  ghost predicate IsRanking(entries: seq<Entry>, ranking: seq<Entry>)
  {
    multiset(ranking) == multiset(entries) && SortedBy(ranking, RankedBefore())
  }

  /** There is only one ranking of a list of entries. */
  lemma RankingUnique(entries: seq<Entry>, r1: seq<Entry>, r2: seq<Entry>)
    requires IsRanking(entries, r1) && IsRanking(entries, r2)
    ensures r1 == r2
  {
    RankingOrder();
    SortedUnique(r1, r2, RankedBefore());
  }

  /** name + " - " + score. */
  function Format(e: Entry): (line: string)
  {
    e.name + " - " + IntToString(e.score)
  }

  /** What getHighScores shows for a ranking: the first MAX_SHOWN formatted
      entries, or NO_SCORES when there are none. */
  function Display(ranking: seq<Entry>): (shown: seq<string>)
    ensures 1 <= |shown| <= MAX_SHOWN
    ensures ranking == [] ==> shown == [NO_SCORES]
    ensures ranking != [] ==> |shown| == if |ranking| < MAX_SHOWN then |ranking| else MAX_SHOWN
    ensures ranking != [] ==> forall i :: 0 <= i < |shown| ==> shown[i] == Format(ranking[i])
  {
    if ranking == [] then [NO_SCORES]
    else
      var k := if |ranking| < MAX_SHOWN then |ranking| else MAX_SHOWN;
      seq(k, i requires 0 <= i < k => Format(ranking[i]))
  }

  /** The while (getline(...)) loop: parse every line and keep what parses. */
  method ParseAll(ls: seq<string>) returns (scores: seq<Entry>)
    ensures scores == ParsedEntries(ls)
  {
    scores := [];
    var i := 0;
    while i < |ls|
      invariant 0 <= i <= |ls|
      invariant scores == ParsedEntries(ls[..i])
    {
      assert ls[..i + 1][..i] == ls[..i];
      var parsed := ParseLine(ls[i]);
      if parsed.Some? {
        scores := scores + [parsed.value];
      }
      i := i + 1;
    }
    assert ls[..i] == ls;
  }

  /** The in-place descending sort of the parsed scores. */
  method Rank(scores: seq<Entry>) returns (ranking: seq<Entry>)
    ensures IsRanking(scores, ranking)
  {
    var a := new Entry[|scores|](i requires 0 <= i < |scores| => scores[i]);
    assert a[..] == scores;
    RankingOrder();
    InsertionSort(a, RankedBefore());
    ranking := a[..];
  }

  /** getHighScores, with the file given as its contents (None when it cannot
      be opened).  The result is NO_SCORES alone when the file is missing or
      no line parses, and otherwise the first MAX_SHOWN entries of the unique
      ranking of the parsed lines, formatted. */
  method GetHighScores(file: Option<string>) returns (formatted: seq<string>)
    ensures 1 <= |formatted| <= MAX_SHOWN
    ensures file.None? ==> formatted == [NO_SCORES]
    ensures file.Some? ==> exists ranking ::
      IsRanking(ParsedEntries(Lines(file.value)), ranking) && formatted == Display(ranking)
  {
    formatted := [];
    if file.Some? {
      var scores := ParseAll(Lines(file.value));
      var ranking := Rank(scores);
      formatted := FormatAll(ranking);
      formatted := TopTen(formatted);
      ShownOfRanking(ranking, formatted);
    } else {
      formatted := TopTen([NO_SCORES]);
    }
  }

  /** The formatting loop: one string per entry, in ranking order. */
  method FormatAll(ranking: seq<Entry>) returns (formatted: seq<string>)
    ensures |formatted| == |ranking|
    ensures forall k :: 0 <= k < |ranking| ==> formatted[k] == Format(ranking[k])
  {
    formatted := [];
    var i := 0;
    while i < |ranking|
      invariant 0 <= i <= |ranking|
      invariant |formatted| == i
      invariant forall k :: 0 <= k < i ==> formatted[k] == Format(ranking[k])
    {
      formatted := formatted + [Format(ranking[i])];
      i := i + 1;
    }
  }

  /** The final trim: keep the first MAX_SHOWN strings, and show NO_SCORES
      when nothing is left. */
  method TopTen(all: seq<string>) returns (shown: seq<string>)
    ensures all == [] ==> shown == [NO_SCORES]
    ensures all != [] ==> shown == all[..if |all| < MAX_SHOWN then |all| else MAX_SHOWN]
  {
    shown := all;
    if |shown| > MAX_SHOWN {
      shown := shown[..MAX_SHOWN];
    }
    if |shown| == 0 {
      shown := shown + [NO_SCORES];
    }
  }

  /** The trimmed formatting of a ranking is its display. */
  lemma ShownOfRanking(ranking: seq<Entry>, shown: seq<string>)
    requires ranking == [] ==> shown == [NO_SCORES]
    requires ranking != [] ==> |shown| == (if |ranking| < MAX_SHOWN then |ranking| else MAX_SHOWN)
    requires ranking != [] ==> forall k :: 0 <= k < |shown| ==> shown[k] == Format(ranking[k])
    ensures shown == Display(ranking)
  {
  }

  /** The shown entries never increase down the list: each score is at least
      the next one's. */
  lemma DisplayIsDescending(entries: seq<Entry>, ranking: seq<Entry>, i: int, j: int)
    requires IsRanking(entries, ranking) && 0 <= i < j < |ranking|
    ensures ranking[i].score >= ranking[j].score
  {
    assert RankedBefore()(ranking[i], ranking[j]);
  }
}
