/**
 * Morse: the translation of a message, and the light the LED shows for it, one `bool` for each 250 ms. Messages are
 * recovered from the light.
 */
module Morse {
  import opened Wrappers

  // ---- the code ----

  function Upper(c: char): char {
    if 'a' <= c <= 'z' then c - 'a' + 'A' else c
  }

  /** Letters of either case share a code; a space has the code " ". */
  function Code(c: char): Option<string> {
    var u := Upper(c);
    if 'A' <= u <= 'M' then CodeToM(u)
    else if 'N' <= u <= 'Z' then CodeFromN(u)
    else if '0' <= u <= '9' then CodeOfDigit(u)
    else if u == ' ' then Some(" ")
    else CodeOfPunctuation(u)
  }

  function CodeToM(c: char): Option<string> {
    match c
    case 'A' => Some(".-")
    case 'B' => Some("-...")
    case 'C' => Some("-.-.")
    case 'D' => Some("-..")
    case 'E' => Some(".")
    case 'F' => Some("..-.")
    case 'G' => Some("--.")
    case 'H' => Some("....")
    case 'I' => Some("..")
    case 'J' => Some(".---")
    case 'K' => Some("-.-")
    case 'L' => Some(".-..")
    case 'M' => Some("--")
    case _ => None
  }

  function CodeFromN(c: char): Option<string> {
    match c
    case 'N' => Some("-.")
    case 'O' => Some("---")
    case 'P' => Some(".--.")
    case 'Q' => Some("--.-")
    case 'R' => Some(".-.")
    case 'S' => Some("...")
    case 'T' => Some("-")
    case 'U' => Some("..-")
    case 'V' => Some("...-")
    case 'W' => Some(".--")
    case 'X' => Some("-..-")
    case 'Y' => Some("-.--")
    case 'Z' => Some("--..")
    case _ => None
  }

  function CodeOfDigit(c: char): Option<string> {
    match c
    case '0' => Some("-----")
    case '1' => Some(".----")
    case '2' => Some("..---")
    case '3' => Some("...--")
    case '4' => Some("....-")
    case '5' => Some(".....")
    case '6' => Some("-....")
    case '7' => Some("--...")
    case '8' => Some("---..")
    case '9' => Some("----.")
    case _ => None
  }

  function CodeOfPunctuation(c: char): Option<string> {
    match c
    case '.' => Some(".-.-.-")
    case ',' => Some("--..--")
    case ':' => Some("---...")
    case '?' => Some("..--..")
    case '\'' => Some(".----.")
    case '-' => Some("-....-")
    case '/' => Some("-..-.")
    case '(' => Some("-.--.-")
    case ')' => Some("-.--.-")
    case '"' => Some(".-..-.")
    case '@' => Some(".--.-.")
    case '=' => Some("-...-")
    case _ => None
  }

  /** The letter of a code; '(' and ')' share one. */
  function Letter(s: string): Option<char> {
    if s == " " then Some(' ')
    else if |s| == 1 then LetterOne(s)
    else if |s| == 2 then LetterTwo(s)
    else if |s| == 3 then LetterThree(s)
    else if |s| == 4 then LetterFour(s)
    else if |s| == 5 then LetterFive(s)
    else if |s| == 6 then LetterSix(s)
    else None
  }

  function LetterOne(s: string): Option<char> {
    if s == "." then Some('E') else if s == "-" then Some('T') else None
  }

  function LetterTwo(s: string): Option<char> {
    if s == ".-" then Some('A') else if s == ".." then Some('I') else if s == "--" then Some('M') else
    if s == "-." then Some('N') else None
  }

  function LetterThree(s: string): Option<char> {
    if s == "-.." then Some('D') else if s == "--." then Some('G') else if s == "-.-" then Some('K') else
    if s == "---" then Some('O') else if s == ".-." then Some('R') else if s == "..." then Some('S') else
    if s == "..-" then Some('U') else if s == ".--" then Some('W') else None
  }

  function LetterFour(s: string): Option<char>
    requires s != ""
  {
    if s[0] == '.' then
      if s == "..-." then Some('F') else if s == "...." then Some('H') else if s == ".---" then Some('J') else
      if s == ".-.." then Some('L') else if s == ".--." then Some('P') else if s == "...-" then Some('V') else None
    else
      if s == "-..." then Some('B') else if s == "-.-." then Some('C') else if s == "--.-" then Some('Q') else
      if s == "-..-" then Some('X') else if s == "-.--" then Some('Y') else if s == "--.." then Some('Z') else None
  }

  function LetterFive(s: string): Option<char>
    requires s != ""
  {
    if s[0] == '.' then
      if s == ".----" then Some('1') else if s == "..---" then Some('2') else if s == "...--" then Some('3') else
      if s == "....-" then Some('4') else if s == "....." then Some('5') else None
    else
      if s == "-----" then Some('0') else if s == "-...." then Some('6') else if s == "--..." then Some('7') else
      if s == "---.." then Some('8') else if s == "----." then Some('9') else if s == "-..-." then Some('/') else
      if s == "-...-" then Some('=') else None
  }

  function LetterSix(s: string): Option<char>
    requires s != ""
  {
    if s[0] == '.' then
      if s == ".-.-.-" then Some('.') else if s == "..--.." then Some('?') else if s == ".----." then Some('\'') else
      if s == ".-..-." then Some('"') else if s == ".--.-." then Some('@') else None
    else
      if s == "--..--" then Some(',') else if s == "---..." then Some(':') else if s == "-....-" then Some('-') else
      if s == "-.--.-" then Some('(') else None
  }

  /** What a letter is recovered as. */
  function CanonOf(c: char): char {
    if c == ')' then '(' else Upper(c)
  }

  predicate Signals(s: string) {
    s != "" && forall i | 0 <= i < |s| :: s[i] == '.' || s[i] == '-'
  }

  /** A code is dots and dashes, and gives its letter back. */
  predicate Entry(c: char, s: string) {
    Code(c) == Some(s) && Signals(s) && Letter(s) == Some(CanonOf(c))
  }

  lemma EntriesAToG()
    ensures Entry('A', ".-") && Entry('B', "-...") && Entry('C', "-.-.") && Entry('D', "-..")
    ensures Entry('E', ".") && Entry('F', "..-.") && Entry('G', "--.")
  {
  }

  lemma EntriesHToM()
    ensures Entry('H', "....") && Entry('I', "..") && Entry('J', ".---") && Entry('K', "-.-")
    ensures Entry('L', ".-..") && Entry('M', "--")
  {
  }

  lemma EntriesNToR()
    ensures Entry('N', "-.") && Entry('O', "---") && Entry('P', ".--.") && Entry('Q', "--.-")
    ensures Entry('R', ".-.")
  {
  }

  lemma EntriesSToV()
    ensures Entry('S', "...") && Entry('T', "-") && Entry('U', "..-") && Entry('V', "...-")
  {
  }

  lemma EntriesWToZ()
    ensures Entry('W', ".--") && Entry('X', "-..-") && Entry('Y', "-.--") && Entry('Z', "--..")
  {
  }

  lemma EntriesLowDigits()
    ensures Entry('0', "-----") && Entry('1', ".----") && Entry('2', "..---") && Entry('3', "...--")
    ensures Entry('4', "....-")
  {
  }

  lemma EntriesHighDigits()
    ensures Entry('5', ".....") && Entry('6', "-....") && Entry('7', "--...") && Entry('8', "---..")
    ensures Entry('9', "----.")
  {
  }

  lemma EntriesStops()
    ensures Entry('.', ".-.-.-") && Entry(',', "--..--") && Entry(':', "---...") && Entry('?', "..--..")
  {
  }

  lemma EntriesSigns()
    ensures Entry('\'', ".----.") && Entry('-', "-....-") && Entry('/', "-..-.") && Entry('=', "-...-")
  {
  }

  lemma EntriesPairs()
    ensures Entry('(', "-.--.-") && Entry(')', "-.--.-") && Entry('"', ".-..-.") && Entry('@', ".--.-.")
  {
  }

  predicate InCode(u: char) {
    'A' <= u <= 'Z' || '0' <= u <= '9' || u in ".,:?'-/=()\"@"
  }

  lemma CodedIn(c: char)
    requires Code(c).Some? && c != ' '
    ensures InCode(Upper(c)) && Code(Upper(c)) == Code(c) && CanonOf(Upper(c)) == CanonOf(c)
  {
  }

  lemma EntryOf(u: char) returns (s: string)
    requires InCode(u)
    ensures Entry(u, s)
  {
    hide Entry;
    if 'A' <= u <= 'M' {
      EntriesAToG();
      EntriesHToM();
      s :| Entry(u, s);
    } else if 'N' <= u <= 'Z' {
      EntriesNToR();
      EntriesSToV();
      EntriesWToZ();
      s :| Entry(u, s);
    } else if '0' <= u <= '9' {
      EntriesLowDigits();
      EntriesHighDigits();
      s :| Entry(u, s);
    } else {
      EntriesStops();
      EntriesSigns();
      EntriesPairs();
      s :| Entry(u, s);
    }
  }

  /** The code of a letter is dots and dashes, that of a space " ", and either gives the letter back. */
  lemma CodeGivesLetter(c: char)
    requires Code(c).Some?
    ensures Letter(Code(c).value) == Some(CanonOf(c))
    ensures if c == ' ' then Code(c).value == " " else Signals(Code(c).value)
  {
    if c != ' ' {
      CodedIn(c);
      var s := EntryOf(Upper(c));
      hide Signals, Letter, Code, CanonOf, Upper;
    }
  }

  /** A lower-case letter has the code of its capital, a space its own, and no other character but these has one. */
  lemma CodeableExactly(c: char)
    ensures 'a' <= c <= 'z' ==> Code(c) == Code(c - 'a' + 'A') && CanonOf(c) == c - 'a' + 'A'
    ensures Code(' ') == Some(" ")
    ensures Code(c).Some? <==>
      'A' <= c <= 'Z' || 'a' <= c <= 'z' || '0' <= c <= '9' || c in ".,:?'-/=()\"@ "
  {
    if InCode(Upper(c)) {
      var s := EntryOf(Upper(c));
    }
    hide Letter, Signals;
  }

  /** What letters are recovered as: capitals, '(' for either bracket, and everything else as itself. */
  lemma CanonIs(c: char)
    ensures CanonOf(c) == if 'a' <= c <= 'z' then c - 'a' + 'A' else if c == ')' then '(' else c
  {
  }

  lemma CanonSameCode(c: char)
    requires Code(c).Some?
    ensures Code(CanonOf(c)) == Code(c)
  {
  }

  // ---- messages ----

  predicate Codeable(m: string) {
    forall i | 0 <= i < |m| :: Code(m[i]).Some?
  }

  function Canon(m: string): string {
    if m == "" then "" else [CanonOf(m[0])] + Canon(m[1..])
  }

  function Codes(m: string): (cs: seq<string>)
    requires Codeable(m)
    ensures |cs| == |m|
  {
    if m == "" then [] else [Code(m[0]).value] + Codes(m[1..])
  }

  /** The codes, a '/' behind each. */
  function Encoded(m: string): string
    requires Codeable(m)
  {
    if m == "" then "" else Code(m[0]).value + "/" + Encoded(m[1..])
  }

  lemma {:induction false} EncodedAppend(m: string, n: string)
    requires Codeable(m) && Codeable(n)
    ensures Codeable(m + n)
    ensures Encoded(m + n) == Encoded(m) + Encoded(n)
  {
    hide Code;
    if m == "" {
      assert m + n == n;
    } else {
      var u, first := m + n, Code(m[0]).value + "/";
      assert u[0] == m[0] && u[1..] == m[1..] + n;
      EncodedAppend(m[1..], n);
      assert Encoded(u) == first + (Encoded(m[1..]) + Encoded(n)) == (first + Encoded(m[1..])) + Encoded(n);
    }
  }

  /** The codes, a '/' between any two. */
  function Text(m: string): string
    requires Codeable(m) && m != ""
  {
    if |m| == 1 then Code(m[0]).value else Code(m[0]).value + "/" + Text(m[1..])
  }

  lemma {:induction false} EncodedIsText(m: string)
    requires Codeable(m) && m != ""
    ensures Encoded(m) == Text(m) + "/"
  {
    hide Code;
    if |m| > 1 {
      EncodedIsText(m[1..]);
    } else {
      assert Encoded(m[1..]) == "";
    }
  }

  function Split(s: string): (parts: seq<string>)
    ensures parts != []
  {
    if s == "" then [""]
    else
      var parts := Split(s[1..]);
      if s[0] == '/' then [""] + parts else [[s[0]] + parts[0]] + parts[1..]
  }

  lemma {:induction false} SplitFirst(s: string, t: string)
    requires '/' !in s
    ensures Split(s + "/" + t) == [s] + Split(t)
  {
    if s == "" {
      assert s + "/" + t == "/" + t;
      assert ("/" + t)[1..] == t;
    } else {
      SplitFirst(s[1..], t);
      assert (s + "/" + t)[1..] == s[1..] + "/" + t;
      assert [s[0]] + s[1..] == s;
    }
  }

  lemma {:induction false} SplitLast(s: string)
    requires '/' !in s
    ensures Split(s) == [s]
  {
    if s == "" {
    } else {
      SplitLast(s[1..]);
      assert [s[0]] + s[1..] == s;
    }
  }

  function Letters(cs: seq<string>): Option<string> {
    if cs == [] then Some("")
    else
      var rest := Letters(cs[1..]);
      if Letter(cs[0]).None? || rest.None? then None else Some([Letter(cs[0]).value] + rest.value)
  }

  lemma {:induction false} CodesGiveLetters(m: string)
    requires Codeable(m)
    ensures Letters(Codes(m)) == Some(Canon(m))
  {
    hide Code, Letter;
    if m == "" {
    } else {
      CodesGiveLetters(m[1..]);
      CodeGivesLetter(m[0]);
      assert Codes(m)[1..] == Codes(m[1..]);
    }
  }

  lemma {:induction false} SplitGivesCodes(m: string)
    requires Codeable(m) && m != ""
    ensures Split(Text(m)) == Codes(m)
  {
    hide Code, Letter;
    CodeGivesLetter(m[0]);
    if |m| > 1 {
      SplitGivesCodes(m[1..]);
      SplitFirst(Code(m[0]).value, Text(m[1..]));
    } else {
      SplitLast(Code(m[0]).value);
      assert Codes(m[1..]) == [];
    }
  }

  /** Splitting a translation at the slashes recovers the message, up to letter case and the two brackets. */
  lemma SplitRecovers(m: string)
    requires Codeable(m) && m != ""
    ensures Letters(Split(Text(m))) == Some(Canon(m))
  {
    SplitGivesCodes(m);
    CodesGiveLetters(m);
  }

  // ---- the light ----

  function Lit(n: nat): seq<bool> { seq(n, _ => true) }
  function Dark(n: nat): seq<bool> { seq(n, _ => false) }

  /** What one character of a translation shows, with the common gap behind it. */
  function Atom(c: char): seq<bool> {
    (if c == '.' then Lit(1) else if c == '-' then Lit(3) else if c == '/' then Dark(1) else Dark(5)) + Dark(1)
  }

  function Wave(s: string): seq<bool> {
    if s == "" then [] else Atom(s[0]) + Wave(s[1..])
  }

  lemma {:induction false} WaveAppend(s: string, t: string)
    ensures Wave(s + t) == Wave(s) + Wave(t)
  {
    hide Atom;
    if s == "" {
      assert s + t == t;
    } else {
      var u := s + t;
      assert u[0] == s[0] && u[1..] == s[1..] + t;
      WaveAppend(s[1..], t);
      assert Wave(u) == Atom(s[0]) + (Wave(s[1..]) + Wave(t)) == (Atom(s[0]) + Wave(s[1..])) + Wave(t);
    }
  }

  /**
   * Reading the light: a pulse of one unit is a dot, one of three a dash. Dark time at the start of a code is a space
   * of six units, behind a code a slash of two.
   */
  function ReadText(w: seq<bool>, start: bool): string {
    if w == [] then ""
    else if w[0] then
      if |w| >= 2 && !w[1] then "." + ReadText(w[2..], false)
      else if |w| >= 4 then "-" + ReadText(w[4..], false)
      else ""
    else if start then
      if |w| >= 6 then " " + ReadText(w[6..], false) else ""
    else if |w| >= 2 then "/" + ReadText(w[2..], true)
    else ""
  }

  /** Codes and slashes by turns. */
  predicate WellFormed(s: string, start: bool) {
    s == "" ||
    (if s[0] == '.' || s[0] == '-' then WellFormed(s[1..], false)
     else if start then s[0] == ' ' && WellFormed(s[1..], false)
     else s[0] == '/' && WellFormed(s[1..], true))
  }

  lemma AtomRead(c: char, rest: seq<bool>, start: bool)
    requires c == '.' || c == '-' || c == if start then ' ' else '/'
    ensures ReadText(Atom(c) + rest, start) == [c] + ReadText(rest, c == '/')
  {
  }

  lemma {:induction false} ReadsBack(s: string, start: bool)
    requires WellFormed(s, start)
    ensures ReadText(Wave(s), start) == s
  {
    if s == "" {
    } else {
      ReadsBack(s[1..], s[0] == '/');
      AtomRead(s[0], Wave(s[1..]), start);
      hide Atom, ReadText;
    }
  }

  lemma {:induction false} SignalsThen(s: string, t: string, start: bool)
    requires Signals(s) && (t == "" || (t[0] == '/' && WellFormed(t[1..], true)))
    ensures WellFormed(s + t, start)
  {
    assert (s + t)[1..] == s[1..] + t;
    if |s| > 1 {
      SignalsThen(s[1..], t, false);
    } else {
      assert s[1..] + t == t;
    }
  }

  lemma {:induction false} TextWellFormed(m: string)
    requires Codeable(m) && m != ""
    ensures WellFormed(Text(m), true)
  {
    hide Code, Letter;
    CodeGivesLetter(m[0]);
    var s, t := Code(m[0]).value, "";
    if |m| > 1 {
      TextWellFormed(m[1..]);
      t := "/" + Text(m[1..]);
      assert t[1..] == Text(m[1..]);
    }
    assert Text(m) == s + t;
    if m[0] == ' ' {
      assert (s + t)[1..] == t;
    } else {
      SignalsThen(s, t, true);
    }
  }

  function Decode(w: seq<bool>): Option<string> {
    Letters(Split(ReadText(w, true)))
  }

  /** Every message that has a translation is recovered from the light, up to letter case and the two brackets. */
  lemma LightRecovers(m: string)
    requires Codeable(m) && m != ""
    ensures Decode(Wave(Text(m))) == Some(Canon(m))
  {
    TextWellFormed(m);
    ReadsBack(Text(m), true);
    SplitRecovers(m);
  }

  lemma {:induction false} CanonSameText(m: string, n: string)
    requires Codeable(m) && Codeable(n) && m != "" && Canon(m) == Canon(n)
    ensures |m| == |n| && Text(m) == Text(n)
  {
    hide Code, Upper;
    CanonLength(m);
    CanonLength(n);
    assert Canon(m)[0] == Canon(n)[0] && Canon(m)[1..] == Canon(n)[1..];
    CanonSameCode(m[0]);
    CanonSameCode(n[0]);
    if |m| > 1 {
      CanonSameText(m[1..], n[1..]);
    }
  }

  lemma {:induction false} CanonLength(m: string)
    ensures |Canon(m)| == |m|
    ensures forall i | 0 <= i < |m| :: Canon(m)[i] == CanonOf(m[i])
  {
    hide CanonOf;
    if m == "" {
    } else {
      CanonLength(m[1..]);
    }
  }

  /** Two messages show the same light exactly if they differ at most in letter case and the two brackets. */
  lemma SameLightExactly(m: string, n: string)
    requires Codeable(m) && Codeable(n) && m != "" && n != ""
    ensures Wave(Text(m)) == Wave(Text(n)) <==> Canon(m) == Canon(n)
  {
    LightRecovers(m);
    LightRecovers(n);
    if Canon(m) == Canon(n) {
      CanonSameText(m, n);
    }
  }

  // ---- dark time ----

  /** A code without the gap behind it. */
  function Shown(s: string): seq<bool>
    requires Wave(s) != []
  {
    Wave(s)[..|Wave(s)| - 1]
  }

  lemma {:induction false} ShownEnds(s: string)
    requires Signals(s)
    ensures Wave(s) != [] && Shown(s) != [] && Wave(s) == Shown(s) + Dark(1)
    ensures Shown(s)[0] && Shown(s)[|Shown(s)| - 1]
    ensures |s| == 1 ==> Shown(s) == Lit(if s == "." then 1 else 3)
  {
    assert Atom(s[0])[0];
    if |s| > 1 {
      ShownEnds(s[1..]);
      assert Shown(s) == Atom(s[0]) + Shown(s[1..]);
    } else {
      assert Wave(s[1..]) == [];
      assert Wave(s) == Atom(s[0]) == Lit(if s == "." then 1 else 3) + Dark(1);
    }
  }

  /** Inside a letter, one unit is dark between any two pulses. */
  lemma GapInsideLetter(s: string, t: string)
    requires Signals(s) && Signals(t)
    ensures Signals(s + t) && Wave(s) != [] && Wave(t) != [] && Wave(s + t) != []
    ensures Shown(s + t) == Shown(s) + Dark(1) + Shown(t)
  {
    ShownEnds(s);
    ShownEnds(t);
    WaveAppend(s, t);
  }

  function Spaces(k: nat): string { seq(k, _ => ' ') }

  lemma {:induction false} SpacesDark(k: nat)
    ensures Codeable(Spaces(k)) && Wave(Encoded(Spaces(k))) == Dark(8 * k)
  {
    if k == 0 {
    } else {
      SpacesDark(k - 1);
      assert Spaces(k)[1..] == Spaces(k - 1);
      assert Encoded(Spaces(k)) == " " + "/" + Encoded(Spaces(k - 1));
      WaveAppend(" " + "/", Encoded(Spaces(k - 1)));
      WaveAppend(" ", "/");
      assert Wave("/") == Dark(2) && Wave(" ") == Dark(6);
    }
  }

  lemma LetterWave(c: char)
    requires Code(c).Some? && c != ' '
    ensures Codeable([c]) && Wave(Code(c).value) != []
    ensures Wave(Encoded([c])) == Shown(Code(c).value) + Dark(3)
  {
    CodeGivesLetter(c);
    var s := Code(c).value;
    ShownEnds(s);
    assert Encoded([c][1..]) == "";
    assert Encoded([c]) == s + "/";
    WaveAppend(s, "/");
    assert Wave("/") == Dark(2);
  }

  /** Between two letters `k` spaces apart, anywhere in a message, 3 + 8 * k units are dark. */
  lemma GapBetweenLetters(pre: string, a: char, k: nat, b: char, post: string)
    requires Codeable(pre) && Codeable(post) && Code(a).Some? && Code(b).Some? && a != ' ' && b != ' '
    ensures Codeable(pre + [a] + Spaces(k) + [b] + post)
    ensures Wave(Code(a).value) != [] && Wave(Code(b).value) != []
    ensures Wave(Text(pre + [a] + Spaces(k) + [b] + post)) + Dark(2) ==
      Wave(Encoded(pre)) + Shown(Code(a).value) + Dark(3 + 8 * k) + Shown(Code(b).value) + Dark(3) + Wave(Encoded(post))
  {
    hide Wave, Encoded, Text, Code, Codeable, Dark;
    LetterWave(a);
    LetterWave(b);
    SpacesDark(k);
    WaveEncodedAppend(pre, [a]);
    WaveEncodedAppend(pre + [a], Spaces(k));
    WaveEncodedAppend(pre + [a] + Spaces(k), [b]);
    WaveEncodedAppend(pre + [a] + Spaces(k) + [b], post);
    TextWave(pre + [a] + Spaces(k) + [b] + post);
    DarkJoins(Wave(Encoded(pre)), Shown(Code(a).value), k);
    assert forall p: seq<bool>, x: seq<bool>, d: seq<bool> :: p + (x + d) == p + x + d;
  }

  lemma DarkJoins(p: seq<bool>, x: seq<bool>, k: nat)
    ensures p + (x + Dark(3)) + Dark(8 * k) == p + x + Dark(3 + 8 * k)
  {
  }

  lemma TextWave(m: string)
    requires Codeable(m) && m != ""
    ensures Wave(Encoded(m)) == Wave(Text(m)) + Dark(2)
  {
    EncodedIsText(m);
    WaveAppend(Text(m), "/");
    assert Wave("/") == Dark(2);
  }

  lemma WaveEncodedAppend(m: string, n: string)
    requires Codeable(m) && Codeable(n)
    ensures Codeable(m + n) && Wave(Encoded(m + n)) == Wave(Encoded(m)) + Wave(Encoded(n))
  {
    EncodedAppend(m, n);
    WaveAppend(Encoded(m), Encoded(n));
  }

  // ---- the programs ----

  /** The exceptions `translate` throws: a character without a code, and the empty message. */
  datatype Outcome = Morse(text: string) | Uncodeable(c: char) | OutOfBounds

  function FirstUncodeable(m: string): (r: Option<char>)
    ensures r.None? <==> Codeable(m)
  {
    if m == "" then None else if Code(m[0]).None? then Some(m[0]) else FirstUncodeable(m[1..])
  }

  function Translation(m: string): Outcome {
    if !Codeable(m) then Uncodeable(FirstUncodeable(m).value)
    else if m == "" then OutOfBounds
    else Morse(Text(m))
  }

  /**
   * What `translate` returns for a message that has a translation gives it back when split at the slashes, and what the
   * LED then shows gives it back when read.
   */
  lemma TranslationRecovers(m: string)
    requires Codeable(m) && m != ""
    ensures Translation(m).Morse?
    ensures Letters(Split(Translation(m).text)) == Some(Canon(m))
    ensures Decode(Wave(Translation(m).text)) == Some(Canon(m))
  {
    assert Translation(m) == Morse(Text(m));
    hide Letters, Split, Decode, Wave, Text, Canon, Code, Codeable, Translation;
    SplitRecovers(m);
    LightRecovers(m);
  }

  /** Otherwise the message is empty, or its first character without a code is reported. */
  lemma {:induction false} TranslationFails(m: string) returns (i: nat)
    requires m == "" || !Codeable(m)
    ensures m == "" ==> Translation(m) == OutOfBounds
    ensures m != "" ==> i < |m| && Code(m[i]).None? && Codeable(m[..i]) && Translation(m) == Uncodeable(m[i])
  {
    hide Code;
    i := 0;
    if m == "" {
    } else if Code(m[0]).Some? {
      var j := TranslationFails(m[1..]);
      i := j + 1;
      assert m[1..] != "";
      forall k | 0 <= k < i ensures Code(m[..i][k]).Some? {
        assert k > 0 ==> m[1..][..j][k - 1] == m[k];
      }
    }
  }

  lemma EncodedNext(m: string, i: nat)
    requires i < |m| && Codeable(m[..i]) && Code(m[i]).Some?
    ensures Codeable(m[..i + 1]) && Encoded(m[..i + 1]) == Encoded(m[..i]) + Code(m[i]).value + "/"
  {
    var c := m[i];
    assert m[..i + 1] == m[..i] + [c];
    assert Encoded([c]) == Code(c).value + "/" + Encoded([c][1..]);
    hide Code;
    EncodedAppend(m[..i], [c]);
  }

  method Translate(message: string) returns (r: Outcome)
    ensures r == Translation(message)
  {
    var result := "";
    for i := 0 to |message|
      invariant Codeable(message[..i]) && result == Encoded(message[..i])
      invariant FirstUncodeable(message) == FirstUncodeable(message[i..])
    {
      var c := message[i];
      if Code(c).None? {
        return Uncodeable(c);
      }
      result := result + Code(c).value + "/";
      EncodedNext(message, i);
      hide Code;
    }
    assert message[..|message|] == message;
    if result == "" {
      return OutOfBounds;
    }
    EncodedIsText(message);
    return Morse(result[..|result| - 1]);
  }

  /** The LED's pin over time, in units of 250 ms. */
  class Led {
    var shown: seq<bool>

    constructor ()
      ensures shown == []
    {
      shown := [];
    }

    method Flash(units: nat)
      modifies this
      ensures shown == old(shown) + Lit(units)
    {
      shown := shown + Lit(units);
    }

    /** `Thread.sleep` between flashes. */
    method Wait(units: nat)
      modifies this
      ensures shown == old(shown) + Dark(units)
    {
      shown := shown + Dark(units);
    }
  }

  class LedTester {
    var pin1: Led

    constructor (p: Led)
      ensures pin1 == p
    {
      pin1 := p;
    }

    /** The body of the loop over the translation's characters. */
    method FlashAtom(atom: char)
      modifies pin1
      ensures pin1.shown == old(pin1.shown) + Atom(atom)
    {
      if atom == '.' {
        pin1.Flash(1);
      } else if atom == '-' {
        pin1.Flash(3);
      } else if atom == '/' {
        pin1.Wait(1);
      } else {
        pin1.Wait(5);
      }
      pin1.Wait(1);
    }

    /** `flashMorse`, up to the exception if there is one. */
    method FlashMorse(msg: string) returns (r: Outcome)
      modifies this
      ensures r == Translation(msg) && fresh(pin1)
      ensures pin1.shown == if r.Morse? then Wave(r.text) else []
    {
      hide Wave, Atom, Translation;
      EmptyWave();
      pin1 := new Led();
      r := Translate(msg);
      if r.Morse? {
        for i := 0 to |r.text|
          invariant fresh(pin1) && pin1.shown == Wave(r.text[..i])
        {
          FlashAtom(r.text[i]);
          WaveNext(r.text, i);
        }
        assert r.text[..|r.text|] == r.text;
      }
    }
  }

  lemma EmptyWave()
    ensures Wave("") == []
  {
  }

  lemma WaveNext(s: string, i: nat)
    requires i < |s|
    ensures Wave(s[..i + 1]) == Wave(s[..i]) + Atom(s[i])
  {
    WaveAppend(s[..i], [s[i]]);
    assert s[..i + 1] == s[..i] + [s[i]];
    assert Wave([s[i]][1..]) == [];
  }
}
