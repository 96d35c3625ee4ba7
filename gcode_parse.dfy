/**
 * Reading G-code text into blocks: one line becomes a map from upper-case
 * letters to numbers, a program becomes the list of its non-empty lines'
 * maps.  Errors carry what the source throws as std::invalid_argument.
 */
module GcodeParse {

  import opened Common
  import opened GcodeBlocks

  datatype ParseError =
    | NewLineNotAllowed
    | StartsWithNumber
      /** std::stod found no number in the word of this letter. */
    | NoConversion(key: char)
      /** the word of this letter has text after its number. */
    | NotANumber(key: char)

  /** The what() of each exception (std::stod's own message is "stod" in
      the GNU library). */
  function ErrorMessage(e: ParseError): string
  {
    match e
    case NewLineNotAllowed => "new line is not allowed"
    case StartsWithNumber => "gcode line cannot start with number"
    case NoConversion(_) => "stod"
    case NotANumber(_) => "this is not a number"
  }

  // ---------------------------------------------------------------------------
  // The text of a line that is read: blanks removed, comment cut off.

  /** The characters the regular expression [ \r\n\t] removes. */
  predicate IsBlank(c: char)
  {
    c == ' ' || c == '\r' || c == '\n' || c == '\t'
  }

  /** std::regex_replace(line, [ \r\n\t], ""). */
  function Clean(s: string): (r: string)
    ensures forall k :: 0 <= k < |r| ==> !IsBlank(r[k])
    ensures |r| <= |s|
  {
    if s == [] then []
    else Clean(s[..|s| - 1]) + (if IsBlank(s[|s| - 1]) then [] else [s[|s| - 1]])
  }

  lemma {:induction false} CleanAppend(a: string, b: string)
    ensures Clean(a + b) == Clean(a) + Clean(b)
    decreases |b|
  {
    if b == [] {
      assert a + b == a;
    } else {
      var b0 := b[..|b| - 1];
      assert (a + b)[..|a + b| - 1] == a + b0;
      CleanAppend(a, b0);
    }
  }

  lemma CleanSingle(c: char)
    ensures Clean([c]) == if IsBlank(c) then [] else [c]
  {
    assert [c][..0] == [];
  }

  /** Text without blanks is left as it is. */
  lemma {:induction false} CleanNoBlanks(s: string)
    requires forall k :: 0 <= k < |s| ==> !IsBlank(s[k])
    ensures Clean(s) == s
  {
    if s != [] {
      CleanNoBlanks(s[..|s| - 1]);
    }
  }

  /** Everything before the first ';'. */
  function Code(s: string): (r: string)
    ensures |r| <= |s| && r == s[..|r|]
    ensures forall k :: 0 <= k < |r| ==> r[k] != ';'
  {
    if s == [] || s[0] == ';' then [] else [s[0]] + Code(s[1..])
  }

  lemma {:induction false} CodePrefix(s: string, i: nat)
    requires i <= |s| && (i == |s| || s[i] == ';')
    requires forall k :: 0 <= k < i ==> s[k] != ';'
    ensures Code(s) == s[..i]
    decreases i
  {
    if i > 0 {
      CodePrefix(s[1..], i - 1);
      assert s[..i] == [s[0]] + s[1..][..i - 1];
    }
  }

  lemma {:induction false} CodeAtSemicolon(a: string, b: string)
    ensures Code(a + [';'] + b) == Code(a)
    decreases |a|
  {
    if a != [] && a[0] != ';' {
      assert (a + [';'] + b)[1..] == a[1..] + [';'] + b;
      CodeAtSemicolon(a[1..], b);
    }
  }

  // ---------------------------------------------------------------------------
  // Splitting the code into words.

  /** Lower-case letters are upper-cased, everything else is kept. */
  function ToUpper(c: char): (u: char)
    ensures IsLetter(c) <==> 'A' <= u <= 'Z'
    ensures !IsLetter(c) ==> u == c
  {
    if 'a' <= c <= 'z' then (c as int - 'a' as int + 'A' as int) as char else c
  }

  /** The scan state: the current letter (none yet at the start of a line),
      the text of its word, and the text of every word read so far. */
  datatype Scan = Scan(name: Option<char>, v: string, words: map<char, string>)

  /** One character of the scan; None where the source throws because text
      comes before the first letter. */
  function ScanChar(w: Scan, c: char): Option<Scan>
  {
    var u := ToUpper(c);
    if 'A' <= u <= 'Z' then Some(Scan(Some(u), "", w.words[u := ""]))
    else if w.name.None? then None
    else Some(Scan(w.name, w.v + [c], w.words[w.name.value := w.v + [c]]))
  }

  function ScanWords(code: string): Option<Scan>
  {
    if code == [] then Some(Scan(None, "", map[]))
    else
      match ScanWords(code[..|code| - 1])
      case None => None
      case Some(w) => ScanChar(w, code[|code| - 1])
  }

  lemma ScanWordsStep(s: string, i: nat)
    requires i < |s|
    ensures ScanWords(s[..i + 1]) ==
      match ScanWords(s[..i]) case None => None case Some(w) => ScanChar(w, s[i])
  {
    assert s[..i + 1][..i] == s[..i];
  }

  /** The upper-cased letters of a text. */
  function Letters(s: string): set<char>
  {
    set k | 0 <= k < |s| && IsLetter(s[k]) :: ToUpper(s[k])
  }

  predicate HasLetter(s: string)
  {
    exists k :: 0 <= k < |s| && IsLetter(s[k])
  }

  /** A word is made of its letter's text: the current letter is the last
      letter read, and its text is the current word. */
  lemma {:induction false} ScanWordsShape(code: string)
    ensures ScanWords(code).Some? ==>
      var w := ScanWords(code).value;
      && w.words.Keys == Letters(code)
      && (w.name.None? <==> !HasLetter(code))
      && (w.name.Some? ==> w.name.value in w.words && w.words[w.name.value] == w.v)
  {
    if code != [] {
      var init, c := code[..|code| - 1], code[|code| - 1];
      ScanWordsShape(init);
      assert code == init + [c];
      assert Letters(code) == Letters(init) + (if IsLetter(c) then {ToUpper(c)} else {}) by {
        forall x | x in Letters(code)
          ensures x in Letters(init) + (if IsLetter(c) then {ToUpper(c)} else {})
        {
          var k :| 0 <= k < |code| && IsLetter(code[k]) && ToUpper(code[k]) == x;
          if k < |init| {
            assert init[k] == code[k];
          }
        }
        forall x | x in Letters(init)
          ensures x in Letters(code)
        {
          var k :| 0 <= k < |init| && IsLetter(init[k]) && ToUpper(init[k]) == x;
          assert code[k] == init[k];
        }
      }
      assert HasLetter(code) <==> HasLetter(init) || IsLetter(c) by {
        if HasLetter(init) {
          var k :| 0 <= k < |init| && IsLetter(init[k]);
          assert code[k] == init[k];
        }
        if HasLetter(code) && !IsLetter(c) {
          var k :| 0 <= k < |code| && IsLetter(code[k]);
          assert init[k] == code[k];
        }
      }
    }
  }

  /** Reading fails exactly when the code starts with something other than
      a letter. */
  lemma {:induction false} ScanWordsFails(code: string)
    ensures ScanWords(code).None? <==> code != [] && !IsLetter(code[0])
  {
    if |code| > 1 {
      var init := code[..|code| - 1];
      ScanWordsFails(init);
      ScanWordsShape(init);
      assert init[0] == code[0];
      if IsLetter(code[0]) {
        assert HasLetter(init);
      }
    } else if |code| == 1 {
      assert code[..0] == [];
    }
  }

  // ---------------------------------------------------------------------------
  // Converting the words, in ascending order of their letters.

  /** The n-th upper-case letter. */
  function LetterAt(n: nat): char
    requires n < 26
  {
    (65 + n) as char
  }

  /** std::stod(text, &idx) and the check that idx reached the end. */
  function ConvertWord(k: char, text: string): (r: Result<real, ParseError>)
    ensures r.Ok? <==> StodWhole(text).Some?
    ensures r.Ok? ==> r.value == StodWhole(text).value
    ensures r.Err? ==> r.error == NoConversion(k) || r.error == NotANumber(k)
  {
    match ScanDecimal(text)
    case None => Err(NoConversion(k))
    case Some((x, len)) => if len < |text| then Err(NotANumber(k)) else Ok(x)
  }

  /** The words of the letters before LetterAt(n), converted; the first
      letter whose word fails gives the error. */
  function ConvertUpTo(words: map<char, string>, n: nat): Result<Block, ParseError>
    requires n <= 26
  {
    if n == 0 then Ok(map[])
    else
      match ConvertUpTo(words, n - 1)
      case Err(e) => Err(e)
      case Ok(m) =>
        var k := LetterAt(n - 1);
        if k !in words then Ok(m)
        else
          match ConvertWord(k, words[k])
          case Err(e) => Err(e)
          case Ok(x) => Ok(m[k := x])
  }

  /** The letters below LetterAt(n) (all of them for n = 26). */
  predicate Below(k: char, n: nat)
  {
    'A' <= k && (k as int) < 65 + n
  }

  predicate Converts(words: map<char, string>, k: char)
  {
    k in words && ConvertWord(k, words[k]).Ok?
  }

  /** Conversion succeeds exactly when every word converts. */
  lemma {:induction false} ConvertUpToOk(words: map<char, string>, n: nat)
    requires n <= 26
    ensures ConvertUpTo(words, n).Ok? <==> forall k :: k in words && Below(k, n) ==> Converts(words, k)
  {
    if n > 0 {
      ConvertUpToOk(words, n - 1);
      assert forall j :: Below(j, n) <==> Below(j, n - 1) || j == LetterAt(n - 1);
    }
  }

  /** A successful conversion keeps every letter with its number. */
  lemma {:induction false} ConvertUpToValue(words: map<char, string>, n: nat)
    requires n <= 26 && ConvertUpTo(words, n).Ok?
    ensures forall k :: k in ConvertUpTo(words, n).value <==> k in words && Below(k, n)
    ensures forall k :: k in ConvertUpTo(words, n).value ==>
      ConvertWord(k, words[k]) == Ok(ConvertUpTo(words, n).value[k])
  {
    if n > 0 {
      var m := n - 1;
      ConvertUpToValue(words, m);
      assert forall j :: Below(j, n) <==> Below(j, m) || j == LetterAt(m);
    }
  }

  /** A failed conversion reports the smallest letter whose word does not
      convert. */
  lemma {:induction false} ConvertUpToError(words: map<char, string>, n: nat)
    requires n <= 26 && ConvertUpTo(words, n).Err?
    ensures var e := ConvertUpTo(words, n).error;
      && (e.NoConversion? || e.NotANumber?)
      && e.key in words && Below(e.key, n) && ConvertWord(e.key, words[e.key]) == Err(e)
      && forall k :: k in words && 'A' <= k < e.key ==> Converts(words, k)
  {
    var k := LetterAt(n - 1);
    if ConvertUpTo(words, n - 1).Err? {
      ConvertUpToError(words, n - 1);
    } else {
      var m := n - 1;
      ConvertUpToOk(words, m);
      assert forall j :: 'A' <= j < k ==> Below(j, m);
    }
  }

  // ---------------------------------------------------------------------------
  // command_to_map_of_arguments

  /** One line of G-code as a block; a line holding a new line is refused
      before anything else is looked at. */
  function CommandToMap(line: string): (r: Result<Block, ParseError>)
    ensures '\n' in line ==> r == Err(NewLineNotAllowed)
  {
    if '\n' in line then Err(NewLineNotAllowed)
    else
      match ScanWords(Code(Clean(line)))
      case None => Err(StartsWithNumber)
      case Some(w) => ConvertUpTo(w.words, 26)
  }

  /** command_to_map_of_arguments: check for new lines, strip blanks, read
      the words up to a ';', then convert them in ascending key order. */
  method CommandToMapOfArguments(line: string) returns (r: Result<Block, ParseError>)
    ensures r == CommandToMap(line)
  {
    for i := 0 to |line|
      invariant forall k :: 0 <= k < i ==> line[k] != '\n'
    {
      if line[i] == '\n' {
        return Err(NewLineNotAllowed);
      }
    }
    var words := ReadWords(Clean(line));
    if words.None? {
      return Err(StartsWithNumber);
    }
    r := ConvertWords(words.value.words);
  }

  /** The first loop of command_to_map_of_arguments: the words of the text
      up to its first ';', or None where text precedes the first letter. */
  method ReadWords(s: string) returns (r: Option<Scan>)
    ensures r == ScanWords(Code(s))
  {
    var name: Option<char> := None;
    var v := "";
    var ret0: map<char, string> := map[];
    var i := 0;
    while i < |s| && s[i] != ';'
      invariant i <= |s|
      invariant forall k :: 0 <= k < i ==> s[k] != ';'
      invariant ScanWords(s[..i]) == Some(Scan(name, v, ret0))
    {
      ScanWordsStep(s, i);
      var c := s[i];
      if 'a' <= c <= 'z' {
        c := (c as int + 'A' as int - 'a' as int) as char;
      }
      if 'A' <= c <= 'Z' {
        name := Some(c);
        v := "";
        ret0 := ret0[c := v];
      } else {
        v := v + [c];
        if name.None? {
          ScanWordsFails(s[..i + 1]);
          assert Code(s) != [] && Code(s)[0] == s[0];
          ScanWordsFails(Code(s));
          return None;
        }
        ret0 := ret0[name.value := v];
      }
      i := i + 1;
    }
    CodePrefix(s, i);
    r := Some(Scan(name, v, ret0));
  }

  /** The second loop of command_to_map_of_arguments: std::stod on every
      word in ascending order of the letters. */
  method ConvertWords(ret0: map<char, string>) returns (r: Result<Block, ParseError>)
    ensures r == ConvertUpTo(ret0, 26)
  {
    var ret: Block := map[];
    for n := 0 to 26
      invariant ConvertUpTo(ret0, n) == Ok(ret)
    {
      var k := LetterAt(n);
      if k in ret0 {
        var t := ScanDecimal(ret0[k]);
        if t.None? {
          ConvertErrorStays(ret0, n + 1, 26);
          return Err(NoConversion(k));
        }
        if t.value.1 < |ret0[k]| {
          ConvertErrorStays(ret0, n + 1, 26);
          return Err(NotANumber(k));
        }
        ret := ret[k := t.value.0];
      }
    }
    r := Ok(ret);
  }

  /** An error at an earlier letter is the error of the whole conversion. */
  lemma {:induction false} ConvertErrorStays(words: map<char, string>, n: nat, m: nat)
    requires n <= m <= 26 && ConvertUpTo(words, n).Err?
    ensures ConvertUpTo(words, m) == ConvertUpTo(words, n)
    decreases m
  {
    if m > n {
      ConvertErrorStays(words, n, m - 1);
    }
  }

  /** A new line anywhere is the first thing reported. */
  lemma NewLineIff(line: string)
    ensures CommandToMap(line) == Err(NewLineNotAllowed) <==> '\n' in line
  {
    if '\n' !in line {
      var w := ScanWords(Code(Clean(line)));
      if w.Some? && ConvertUpTo(w.value.words, 26).Err? {
        ConvertUpToError(w.value.words, 26);
      }
    }
  }

  /** A line without a new line fails with StartsWithNumber exactly when its
      code (blanks removed, comment cut) starts with something other than a
      letter. */
  lemma StartsWithNumberIff(line: string)
    requires '\n' !in line
    ensures CommandToMap(line) == Err(StartsWithNumber) <==>
      var code := Code(Clean(line)); code != [] && !IsLetter(code[0])
  {
    var code := Code(Clean(line));
    ScanWordsFails(code);
    if ScanWords(code).Some? && ConvertUpTo(ScanWords(code).value.words, 26).Err? {
      ConvertUpToError(ScanWords(code).value.words, 26);
    }
  }

  /** On success the keys are exactly the letters of the code, each holding
      the number of its last word. */
  lemma CommandToMapKeys(line: string)
    requires CommandToMap(line).Ok?
    ensures CommandToMap(line).value.Keys == Letters(Code(Clean(line)))
  {
    var code := Code(Clean(line));
    ScanWordsShape(code);
    var w := ScanWords(code).value;
    ConvertUpToOk(w.words, 26);
    ConvertUpToValue(w.words, 26);
    forall k | k in w.words
      ensures Below(k, 26)
    {
      var j :| 0 <= j < |code| && IsLetter(code[j]) && ToUpper(code[j]) == k;
    }
  }

  /** Two lines with the same code, and both with or both without a new
      line, read the same. */
  lemma SameCode(l1: string, l2: string)
    requires ('\n' in l1 <==> '\n' in l2) && Code(Clean(l1)) == Code(Clean(l2))
    ensures CommandToMap(l1) == CommandToMap(l2)
  {
  }

  /** Blanks (space, tab, carriage return) anywhere are ignored. */
  lemma IgnoresBlanks(a: string, c: char, b: string)
    requires c == ' ' || c == '\t' || c == '\r'
    ensures CommandToMap(a + [c] + b) == CommandToMap(a + b)
  {
    CleanAppend(a + [c], b);
    CleanAppend(a, [c]);
    CleanAppend(a, b);
    CleanSingle(c);
    assert Clean(a + [c]) == Clean(a);
    assert '\n' in a + [c] + b <==> '\n' in a + b;
    SameCode(a + [c] + b, a + b);
  }

  /** Everything after a ';' is a comment. */
  lemma CommentIgnored(a: string, b: string)
    requires '\n' !in b
    ensures CommandToMap(a + [';'] + b) == CommandToMap(a)
  {
    CommentCode(a, b);
    assert '\n' in a + [';'] + b <==> '\n' in a;
    SameCode(a + [';'] + b, a);
  }

  /** The code of a line stops at its first ';'. */
  lemma CommentCode(a: string, b: string)
    ensures Code(Clean(a + [';'] + b)) == Code(Clean(a))
  {
    CleanAppend(a + [';'], b);
    CleanAppend(a, [';']);
    CleanSingle(';');
    CodeAtSemicolon(Clean(a), Clean(b));
  }

  /** A line holding only blanks, or nothing, is the empty block. */
  lemma BlankLineIsEmpty(line: string)
    requires forall k :: 0 <= k < |line| ==> line[k] == ' ' || line[k] == '\t' || line[k] == '\r'
    ensures CommandToMap(line) == Ok(map[])
  {
    if line != [] {
      BlankLineIsEmpty(line[..|line| - 1]);
      IgnoresBlanks(line[..|line| - 1], line[|line| - 1], []);
      assert line[..|line| - 1] + [line[|line| - 1]] + [] == line;
      assert line[..|line| - 1] + [] == line[..|line| - 1];
    } else {
      ConvertUpToOk(map[], 26);
      ConvertUpToValue(map[], 26);
    }
  }

  /** Reading a letter and then text without letters sets that letter's
      word to the text. */
  lemma {:induction false} ScanWord(a: string, c: char, ds: string)
    requires ScanWords(a).Some? && IsLetter(c)
    requires forall k :: 0 <= k < |ds| ==> !IsLetter(ds[k])
    ensures ScanWords(a + [c] + ds) ==
      Some(Scan(Some(ToUpper(c)), ds, ScanWords(a).value.words[ToUpper(c) := ds]))
    decreases |ds|
  {
    if ds == [] {
      assert a + [c] + ds == a + [c];
      assert (a + [c])[..|a|] == a;
    } else {
      var d0, d := ds[..|ds| - 1], ds[|ds| - 1];
      var s0 := a + [c] + d0;
      assert a + [c] + ds == s0 + [d];
      assert (s0 + [d])[..|s0|] == s0;
      ScanWord(a, c, d0);
      assert d0 + [d] == ds;
      assert !IsLetter(d);
      var m, u := ScanWords(a).value.words, ToUpper(c);
      assert m[u := d0][u := ds] == m[u := ds];
    }
  }

  /** A line without new lines, blanks or ';' reads as its words. */
  lemma PlainLine(s: string)
    requires forall k :: 0 <= k < |s| ==> !IsBlank(s[k]) && s[k] != ';'
    ensures CommandToMap(s) ==
      match ScanWords(s) case None => Err(StartsWithNumber) case Some(w) => ConvertUpTo(w.words, 26)
  {
    CleanNoBlanks(s);
    CodePrefix(s, |s|);
    assert s[..|s|] == s;
  }

  /** Upper-case words that all convert give a block with the same keys
      and their numbers. */
  lemma ConvertsAll(words: map<char, string>)
    requires forall k :: k in words ==> 'A' <= k <= 'Z' && Converts(words, k)
    ensures ConvertUpTo(words, 26).Ok?
    ensures ConvertUpTo(words, 26).value.Keys == words.Keys
    ensures forall k :: k in words ==> ConvertWord(k, words[k]) == Ok(ConvertUpTo(words, 26).value[k])
  {
    ConvertUpToOk(words, 26);
    ConvertUpToValue(words, 26);
    SameKeys(ConvertUpTo(words, 26).value, words);
  }

  lemma SameKeys<V, W>(a: map<char, V>, b: map<char, W>)
    requires forall k :: k in a <==> k in b
    ensures a.Keys == b.Keys
  {
  }

  // ---------------------------------------------------------------------------
  // Lines of the unit tests.

  lemma Word0(k: char)
    ensures ConvertWord(k, "0") == Ok(0.0)
  {
    assert "0"[0..1] == "0";
    assert DigitsValue("0") == 0 by {
      assert "0"[..0] == [];
    }
  }

  lemma Word1(k: char)
    ensures ConvertWord(k, "1") == Ok(1.0)
  {
    assert "1"[0..1] == "1";
    assert DigitsValue("1") == 1 by {
      assert "1"[..0] == [];
    }
  }

  lemma Word10(k: char)
    ensures ConvertWord(k, "10") == Ok(10.0)
  {
    assert "10"[0..2] == "10";
    assert DigitsValue("10") == 10 by {
      assert "10"[..1] == "1";
      assert "1"[..0] == [];
    }
  }

  /** "0$0": stod reads the 0 and stops at the '$'. */
  lemma WordTrailing(k: char)
    ensures ConvertWord(k, "0$0") == Err(NotANumber(k))
  {
    var s := "0$0";
    assert SpanDigits(s, 0) == 1;
    assert s[0..1] == "0";
    assert DigitsValue("0") == 0 by {
      assert "0"[..0] == [];
    }
  }

  lemma WordsG0()
    ensures ScanWords("G0") == Some(Scan(Some('G'), "0", map[]['G' := "0"]))
  {
    assert [] + ['G'] + "0" == "G0";
    ScanWord([], 'G', "0");
  }

  /** The lower-case x is read as X. */
  lemma WordsG0x10()
    ensures ScanWords("G0x10") == Some(Scan(Some('X'), "10", map[]['G' := "0"]['X' := "10"]))
  {
    assert "G0" + ['x'] + "10" == "G0x10";
    WordsG0();
    ScanWord("G0", 'x', "10");
  }

  lemma ConvertsG0X10(words: map<char, string>)
    requires words.Keys == {'G', 'X'} && words['G'] == "0" && words['X'] == "10"
    ensures var r := ConvertUpTo(words, 26);
      r.Ok? && r.value.Keys == {'G', 'X'} && r.value['G'] == 0.0 && r.value['X'] == 10.0
  {
    forall k | k in words
      ensures 'A' <= k <= 'Z' && Converts(words, k)
    {
      assert k in {'G', 'X'};
      if k == 'G' {
        Word0(k);
      } else {
        Word10(k);
      }
    }
    ConvertsAll(words);
    Word0('G');
    Word10('X');
  }

  lemma ReadsG0x10()
    ensures var r := CommandToMap("G0x10");
      r.Ok? && r.value.Keys == {'G', 'X'} && r.value['G'] == 0.0 && r.value['X'] == 10.0
  {
    WordsG0x10();
    PlainLine("G0x10");
    ConvertsG0X10(map[]['G' := "0"]['X' := "10"]);
  }

  lemma DropBlank1()
    ensures CommandToMap("G0 x 10 ") == CommandToMap("G0 x 10")
  {
    assert "G0 x 10" + [' '] + [] == "G0 x 10 " && "G0 x 10" + [] == "G0 x 10";
    IgnoresBlanks("G0 x 10", ' ', []);
  }

  lemma DropBlank2()
    ensures CommandToMap("G0 x 10") == CommandToMap("G0 x10")
  {
    assert "G0 x" + [' '] + "10" == "G0 x 10" && "G0 x" + "10" == "G0 x10";
    IgnoresBlanks("G0 x", ' ', "10");
  }

  lemma DropBlank3()
    ensures CommandToMap("G0 x10") == CommandToMap("G0x10")
  {
    assert "G0" + [' '] + "x10" == "G0 x10" && "G0" + "x10" == "G0x10";
    IgnoresBlanks("G0", ' ', "x10");
  }

  /** "G0 x 10 ; Y - 20.5" is {G: 0, X: 10}: blanks are dropped, x is read
      as X, and the comment is ignored. */
  lemma ReadsLineWithComment()
    ensures var r := CommandToMap("G0 x 10 ; Y - 20.5");
      r.Ok? && r.value.Keys == {'G', 'X'} && r.value['G'] == 0.0 && r.value['X'] == 10.0
  {
    assert "G0 x 10 " + [';'] + " Y - 20.5" == "G0 x 10 ; Y - 20.5";
    CommentIgnored("G0 x 10 ", " Y - 20.5");
    DropBlank1();
    DropBlank2();
    DropBlank3();
    ReadsG0x10();
  }

  lemma WordsLeadingNumber()
    ensures ScanWords("2G1X0") == None
  {
    ScanWordsFails("2G1X0");
  }

  /** "2G1X0" starts with a number. */
  lemma RejectsLeadingNumber()
    ensures CommandToMap("2G1X0") == Err(StartsWithNumber)
  {
    WordsLeadingNumber();
    PlainLine("2G1X0");
  }

  lemma WordsG1X0T0()
    ensures ScanWords("G1X0$0T0") == Some(Scan(Some('T'), "0", map[]['G' := "1"]['X' := "0$0"]['T' := "0"]))
  {
    assert [] + ['G'] + "1" == "G1";
    ScanWord([], 'G', "1");
    assert "G1" + ['X'] + "0$0" == "G1X0$0";
    ScanWord("G1", 'X', "0$0");
    assert "G1X0$0" + ['T'] + "0" == "G1X0$0T0";
    ScanWord("G1X0$0", 'T', "0");
  }

  lemma ConvertsG1X0T0(words: map<char, string>)
    requires words.Keys == {'G', 'X', 'T'} && words['G'] == "1" && words['X'] == "0$0" && words['T'] == "0"
    ensures ConvertUpTo(words, 26) == Err(NotANumber('X'))
  {
    FailsG1X0T0(words);
    ConvertUpToError(words, 26);
    var e := ConvertUpTo(words, 26).error;
    OnlyXFails(words, e.key);
    WordTrailing('X');
  }

  lemma FailsG1X0T0(words: map<char, string>)
    requires words.Keys == {'G', 'X', 'T'} && words['X'] == "0$0"
    ensures ConvertUpTo(words, 26).Err?
  {
    WordTrailing('X');
    assert Below('X', 26) && !Converts(words, 'X');
    ConvertUpToOk(words, 26);
  }

  lemma OnlyXFails(words: map<char, string>, k: char)
    requires words.Keys == {'G', 'X', 'T'} && words['G'] == "1" && words['T'] == "0"
    requires k in words && !Converts(words, k)
    ensures k == 'X'
  {
    Word1('G');
    Word0('T');
  }

  /** "G1X0$0T0": the word of X has text after its number. */
  lemma RejectsTrailingText()
    ensures CommandToMap("G1X0$0T0") == Err(NotANumber('X'))
  {
    WordsG1X0T0();
    PlainLine("G1X0$0T0");
    ConvertsG1X0T0(map[]['G' := "1"]['X' := "0$0"]['T' := "0"]);
  }

  // ---------------------------------------------------------------------------
  // gcode_to_maps_of_arguments

  /** The separators of the regular expression [\r\n]. */
  predicate IsLineBreak(c: char)
  {
    c == '\r' || c == '\n'
  }

  /** The pieces between line breaks, the empty piece after a final break
      included (it reads as an empty line). */
  function Lines(s: string): (r: seq<string>)
    ensures |r| >= 1
  {
    if s == [] then [""]
    else
      var ls := Lines(s[..|s| - 1]);
      var c := s[|s| - 1];
      if IsLineBreak(c) then ls + [""] else ls[..|ls| - 1] + [ls[|ls| - 1] + [c]]
  }

  /** No line holds a line break. */
  lemma {:induction false} LinesHaveNoBreaks(s: string)
    ensures forall i, k :: 0 <= i < |Lines(s)| && 0 <= k < |Lines(s)[i]| ==> !IsLineBreak(Lines(s)[i][k])
  {
    if s != [] {
      LinesHaveNoBreaks(s[..|s| - 1]);
    }
  }

  lemma LinesSnoc(s: string, d: char)
    ensures Lines(s + [d]) ==
      var ls := Lines(s);
      if IsLineBreak(d) then ls + [""] else ls[..|ls| - 1] + [ls[|ls| - 1] + [d]]
  {
    assert (s + [d])[..|s|] == s;
  }

  lemma AppendToLast<T>(x: seq<seq<T>>, y: seq<seq<T>>, d: T)
    requires |y| > 0
    ensures var z := x + y; z[..|z| - 1] + [z[|z| - 1] + [d]] == x + (y[..|y| - 1] + [y[|y| - 1] + [d]])
  {
    var z := x + y;
    assert z[..|z| - 1] == x + y[..|y| - 1];
  }

  lemma AppendOne<T>(x: seq<T>, y: seq<T>, e: T)
    ensures (x + y) + [e] == x + (y + [e])
  {
  }

  /** A line break splits the text into the lines before and after it. */
  lemma {:induction false} LinesAtBreak(a: string, c: char, b: string)
    requires IsLineBreak(c)
    ensures Lines(a + [c] + b) == Lines(a) + Lines(b)
    decreases |b|
  {
    if b == [] {
      assert a + [c] + b == a + [c];
      LinesSnoc(a, c);
    } else {
      var b0, d := b[..|b| - 1], b[|b| - 1];
      var s0 := a + [c] + b0;
      assert a + [c] + b == s0 + [d];
      assert b == b0 + [d];
      LinesAtBreak(a, c, b0);
      LinesSnoc(s0, d);
      LinesSnoc(b0, d);
      if IsLineBreak(d) {
        AppendOne(Lines(a), Lines(b0), "");
      } else {
        AppendToLast(Lines(a), Lines(b0), d);
      }
    }
  }

  /** The exception of gcode_to_maps_of_arguments: the 0-based index of the
      line, the line, and what went wrong in it. */
  datatype LineError = LineError(index: nat, line: string, error: ParseError)

  function LineErrorMessage(e: LineError): string
  {
    "gcode_to_maps_of_arguments[" + NatToString(e.index) + "]: \"" + e.line + "\" ::: " + ErrorMessage(e.error)
  }

  /** The lines parsed in order: empty blocks are dropped, the first line
      that fails stops everything. */
  function ParseLines(ls: seq<string>): (r: Result<Program, LineError>)
    ensures r.Ok? ==> |r.value| <= |ls| && forall k :: 0 <= k < |r.value| ==> |r.value[k]| > 0
    ensures r.Err? ==> r.error.index < |ls| && r.error.line == ls[r.error.index]
  {
    if ls == [] then Ok([])
    else
      match ParseLines(ls[..|ls| - 1])
      case Err(e) => Err(e)
      case Ok(p) =>
        var line := ls[|ls| - 1];
        match CommandToMap(line)
        case Err(e) => Err(LineError(|ls| - 1, line, e))
        case Ok(m) => Ok(if |m| > 0 then p + [m] else p)
  }

  function GcodeToMaps(program: string): Result<Program, LineError>
  {
    ParseLines(Lines(program))
  }

  lemma ParseLinesStep(ls: seq<string>, i: nat)
    requires i < |ls|
    ensures ParseLines(ls[..i + 1]) ==
      match ParseLines(ls[..i])
      case Err(e) => Err(e)
      case Ok(p) =>
        match CommandToMap(ls[i])
        case Err(e) => Err(LineError(i, ls[i], e))
        case Ok(m) => Ok(if |m| > 0 then p + [m] else p)
  {
    assert ls[..i + 1][..i] == ls[..i];
  }

  /** gcode_to_maps_of_arguments: every line through
      command_to_map_of_arguments; non-empty maps are kept. */
  method GcodeToMapsOfArguments(program: string) returns (r: Result<Program, LineError>)
    ensures r == GcodeToMaps(program)
  {
    var lines := Lines(program);
    var ret: Program := [];
    for lineNumber := 0 to |lines|
      invariant ParseLines(lines[..lineNumber]) == Ok(ret)
    {
      ParseLinesStep(lines, lineNumber);
      var line := lines[lineNumber];
      var cm := CommandToMapOfArguments(line);
      if cm.Err? {
        ParseErrorStays(lines, lineNumber + 1);
        return Err(LineError(lineNumber, line, cm.error));
      }
      if |cm.value| > 0 {
        ret := ret + [cm.value];
      }
    }
    assert lines[..|lines|] == lines;
    r := Ok(ret);
  }

  /** An error in the first n lines is the error of the whole program. */
  lemma {:induction false} ParseErrorStays(ls: seq<string>, n: nat)
    requires n <= |ls| && ParseLines(ls[..n]).Err?
    ensures ParseLines(ls) == ParseLines(ls[..n])
  {
    if n < |ls| {
      var init := ls[..|ls| - 1];
      assert init[..n] == ls[..n];
      ParseErrorStays(init, n);
    } else {
      assert ls[..n] == ls;
    }
  }

  /** A program fails exactly when one of its lines does. */
  lemma {:induction false} ParseLinesFails(ls: seq<string>)
    ensures ParseLines(ls).Err? <==> exists i :: 0 <= i < |ls| && CommandToMap(ls[i]).Err?
  {
    if ls != [] {
      var init := ls[..|ls| - 1];
      ParseLinesFails(init);
      assert forall i :: 0 <= i < |init| ==> init[i] == ls[i];
    }
  }

  /** The error names the first failing line, by index and text. */
  lemma {:induction false} ParseLinesError(ls: seq<string>)
    requires ParseLines(ls).Err?
    ensures var e := ParseLines(ls).error;
      && e.index < |ls| && e.line == ls[e.index] && CommandToMap(ls[e.index]) == Err(e.error)
      && forall i :: 0 <= i < e.index ==> CommandToMap(ls[i]).Ok?
  {
    var init := ls[..|ls| - 1];
    assert forall i :: 0 <= i < |init| ==> init[i] == ls[i];
    if ParseLines(init).Err? {
      ParseLinesError(init);
    } else {
      ParseLinesFails(init);
    }
  }

  /** Without errors the result holds non-empty blocks, each the parse of
      one of the lines. */
  lemma {:induction false} ParseLinesBlocks(ls: seq<string>)
    requires ParseLines(ls).Ok?
    ensures forall b :: b in ParseLines(ls).value ==>
      |b| > 0 && exists i :: 0 <= i < |ls| && CommandToMap(ls[i]) == Ok(b)
  {
    if ls != [] {
      var init := ls[..|ls| - 1];
      ParseLinesBlocks(init);
      assert forall i :: 0 <= i < |init| ==> init[i] == ls[i];
    }
  }

  lemma {:induction false} ParseLinesAppend(l1: seq<string>, l2: seq<string>)
    requires ParseLines(l1).Ok? && ParseLines(l2).Ok?
    ensures ParseLines(l1 + l2) == Ok(ParseLines(l1).value + ParseLines(l2).value)
    decreases |l2|
  {
    if l2 == [] {
      assert l1 + l2 == l1;
      assert ParseLines(l1).value + [] == ParseLines(l1).value;
    } else {
      var init := l2[..|l2| - 1];
      assert (l1 + l2)[..|l1 + l2| - 1] == l1 + init;
      assert (l1 + l2)[|l1 + l2| - 1] == l2[|l2| - 1];
      ParseLinesAppend(l1, init);
      var p1, p2 := ParseLines(l1).value, ParseLines(init).value;
      AppendOne(p1, p2, CommandToMap(l2[|l2| - 1]).value);
    }
  }

  /** Two texts that both parse, joined by a line break, give the blocks of
      the first followed by the blocks of the second. */
  lemma GcodeToMapsAtBreak(a: string, c: char, b: string)
    requires IsLineBreak(c) && GcodeToMaps(a).Ok? && GcodeToMaps(b).Ok?
    ensures GcodeToMaps(a + [c] + b) == Ok(GcodeToMaps(a).value + GcodeToMaps(b).value)
  {
    LinesAtBreak(a, c, b);
    ParseLinesAppend(Lines(a), Lines(b));
  }

  /** An empty program has no blocks. */
  lemma EmptyProgram()
    ensures GcodeToMaps("") == Ok([])
  {
    BlankLineIsEmpty("");
  }
}
