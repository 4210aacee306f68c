/** The text handling of the SD-card text reader (examples/ILI9488_TextReader.cpp):
    the file name shown in the header, UTF-8 lead bytes, the mixed
    Chinese/English word wrap, the page estimate and the page-range check.
    Text is a string of bytes. The font's get_string_width is not part of
    this model, so the wrap takes it as a parameter `width`. */
module TextReader {
  import opened Ints

  const LCD_HEIGHT: int := 480
  const SCREEN_MARGIN: int := 25
  const LINE_HEIGHT: int := 24
  const TITLE_CONTENT_SPACING: int := 15
  const CONTENT_FOOTER_SPACING: int := 25
  const SPACE: u8 := 0x20

  // ---------------------------------------------------------------------------
  // File names

  predicate IsSeparator(c: char)
  {
    c == '/' || c == '\\'
  }

  /** The name of a file: a suffix of the path with no separator in it. */
  predicate NameOf(path: string, name: string)
  {
    && |name| <= |path|
    && name == path[|path| - |name|..]
    && (forall i :: 0 <= i < |name| ==> !IsSeparator(name[i]))
  }

  /** extract_filename_from_path: what follows the last '/' or '\', or the
      whole path when there is neither. */
  function ExtractFilename(path: string): (name: string)
    ensures NameOf(path, name)
    ensures |name| < |path| ==> IsSeparator(path[|path| - |name| - 1])
  {
    if path == [] then []
    else if IsSeparator(path[|path| - 1]) then []
    else
      var front := path[..|path| - 1];
      var name := ExtractFilename(front) + [path[|path| - 1]];
      assert front[|front| - (|name| - 1)..] + [path[|path| - 1]] == path[|path| - |name|..];
      name
  }

  /** A name that follows a separator and holds none is the file name,
      whatever comes before the separator. */
  lemma {:induction false} FilenameAfterSeparator(dir: string, sep: char, name: string)
    requires IsSeparator(sep)
    requires forall i :: 0 <= i < |name| ==> !IsSeparator(name[i])
    ensures ExtractFilename(dir + [sep] + name) == name
    decreases |name|
  {
    var path := dir + [sep] + name;
    if name != [] {
      var front := name[..|name| - 1];
      assert path[..|path| - 1] == dir + [sep] + front;
      FilenameAfterSeparator(dir, sep, front);
      assert front + [name[|name| - 1]] == name;
    } else {
      assert path[|path| - 1] == sep;
    }
  }

  /** The reader's file, /Stone.txt, is shown as Stone.txt. */
  lemma StoneFilename()
    ensures ExtractFilename("/Stone.txt") == "Stone.txt"
  {
    assert "/Stone.txt" == [] + ['/'] + "Stone.txt";
    FilenameAfterSeparator([], '/', "Stone.txt");
  }

  // ---------------------------------------------------------------------------
  // UTF-8

  /** is_chinese_char: the byte at pos exists and is a three-byte UTF-8 lead
      byte, 0xE0 to 0xEF. */
  predicate IsChineseChar(text: seq<u8>, pos: nat)
  {
    pos < |text| && 0xE0 <= text[pos] <= 0xEF
  }

  /** get_utf8_char_length: the length of the UTF-8 sequence a lead byte
      announces, judged on the lead byte alone; 0 past the end. */
  function Utf8CharLength(text: seq<u8>, pos: nat): (n: nat)
    ensures n <= 4
    ensures n == 0 <==> pos >= |text|
    ensures n == 1 <==> pos < |text| && text[pos] < 0x80
  {
    if pos >= |text| then 0
    else if text[pos] < 0x80 then 1
    else if text[pos] < 0xE0 then 2
    else if text[pos] < 0xF0 then 3
    else 4
  }

  /** The Chinese branch of the wrap always takes three bytes: the lead
      bytes is_chinese_char accepts are exactly those announcing three. */
  lemma ChineseCharsAreThreeBytes(text: seq<u8>, pos: nat)
    ensures IsChineseChar(text, pos) <==> Utf8CharLength(text, pos) == 3
  {
  }

  /** A higher lead byte never announces a shorter sequence, and every byte
      that exists announces between one and four. */
  lemma Utf8LengthMonotone(a: seq<u8>, i: nat, b: seq<u8>, j: nat)
    requires i < |a| && j < |b| && a[i] <= b[j]
    ensures 1 <= Utf8CharLength(a, i) <= Utf8CharLength(b, j) <= 4
  {
  }

  // ---------------------------------------------------------------------------
  // Word wrap

  /** std::string::find(' ', from), with npos written as |text|: the first
      space at or after from. */
  function FindSpace(text: seq<u8>, from: nat): (r: nat)
    requires from <= |text|
    ensures from <= r <= |text|
    ensures r < |text| ==> text[r] == SPACE
    ensures forall i :: from <= i < r ==> text[i] != SPACE
    decreases |text| - from
  {
    if from == |text| then |text|
    else if text[from] == SPACE then from
    else FindSpace(text, from + 1)
  }

  /** Where a word that starts at from and runs to at most end stops: at the
      first Chinese lead byte, if there is one before end. */
  function ChineseFrom(text: seq<u8>, from: nat, end: nat): (r: nat)
    requires from <= end <= |text|
    ensures from <= r <= end
    ensures r < end ==> IsChineseChar(text, r)
    ensures forall i :: from <= i < r ==> !IsChineseChar(text, i)
    decreases end - from
  {
    if from == end then end
    else if IsChineseChar(text, from) then from
    else ChineseFrom(text, from + 1, end)
  }

  /** The end of the English word at pos: the next space or Chinese
      character, or the end of the text. */
  function WordEnd(text: seq<u8>, pos: nat): nat
    requires pos <= |text|
  {
    ChineseFrom(text, pos, FindSpace(text, pos))
  }

  /** The state of the wrap between two rounds of its loop. The position may
      run past the end when the text ends in a truncated Chinese
      character. */
  datatype Wrap = Wrap(pos: nat, current: seq<u8>, lines: seq<seq<u8>>)

  /** The English word at pos: up to the next space or Chinese character.
      It is empty when pos is at a space. */
  function Word(text: seq<u8>, pos: nat): seq<u8>
    requires pos <= |text|
  {
    text[pos..WordEnd(text, pos)]
  }

  /** The Chinese character at pos: three bytes, or fewer at the end of the
      text. */
  function ChineseAt(text: seq<u8>, pos: nat): seq<u8>
    requires pos < |text|
  {
    text[pos..Min(pos + Utf8CharLength(text, pos), |text|)]
  }

  /** The current line with the word added: after a space when both are
      not empty. */
  function Joined(current: seq<u8>, word: seq<u8>): seq<u8>
  {
    if current != [] && word != [] && word[0] != SPACE then current + [SPACE] + word else current + word
  }

  /** Where an English round leaves the position: after the word, and after
      one space following it. */
  function AfterWord(text: seq<u8>, pos: nat): (next: nat)
    requires pos <= |text|
    ensures next <= |text|
  {
    var end := WordEnd(text, pos);
    if end < |text| && text[end] == SPACE then end + 1 else end
  }

  /** The choice both kinds of round make when adding piece to the current
      line would give test: keep test if it fits; otherwise finish the
      current line, if there is one, and start a new one with the piece. */
  function Place(pos: nat, current: seq<u8>, lines: seq<seq<u8>>, piece: seq<u8>, test: seq<u8>, fits: bool): Wrap
  {
    if fits then Wrap(pos, test, lines)
    else if current != [] then Wrap(pos, piece, lines + [current])
    else Wrap(pos, piece, lines)
  }

  /** One round of the loop of wrap_text_lines. A Chinese character joins
      the current line if the widened line fits; otherwise the current line
      (if any) is finished and the character starts the next one. An English
      word joins the current line after one space if it fits; otherwise it
      starts the next line whole, however wide it is. One space after a word
      is consumed. */
  function Step(text: seq<u8>, maxWidth: int, width: seq<u8> -> int, s: Wrap): (r: Wrap)
    requires s.pos < |text|
    ensures r.pos > s.pos
  {
    if IsChineseChar(text, s.pos) then
      var ch := ChineseAt(text, s.pos);
      var test := s.current + ch;
      Place(s.pos + Utf8CharLength(text, s.pos), s.current, s.lines, ch, test, width(test) <= maxWidth)
    else
      var word := Word(text, s.pos);
      var test := Joined(s.current, word);
      Place(AfterWord(text, s.pos), s.current, s.lines, word, test, width(test) <= maxWidth)
  }

  /** The rounds from s to the end of the text, then the last line if it is
      not empty. */
  function WrapFrom(text: seq<u8>, maxWidth: int, width: seq<u8> -> int, s: Wrap): seq<seq<u8>>
    decreases |text| - s.pos
  {
    if s.pos >= |text| then (if s.current != [] then s.lines + [s.current] else s.lines)
    else WrapFrom(text, maxWidth, width, Step(text, maxWidth, width, s))
  }

  /** The lines wrap_text_lines returns; the empty text is one empty line. */
  function WrapText(text: seq<u8>, maxWidth: int, width: seq<u8> -> int): seq<seq<u8>>
  {
    if text == [] then [[]] else WrapFrom(text, maxWidth, width, Wrap(0, [], []))
  }

  /** wrap_text_lines, with the font's get_string_width as `width`. */
  method WrapTextLines(text: seq<u8>, maxWidth: int, width: seq<u8> -> int) returns (lines: seq<seq<u8>>)
    ensures lines == WrapText(text, maxWidth, width)
  {
    lines := [];
    if |text| == 0 {
      lines := lines + [[]];
      return;
    }
    var current: seq<u8> := [];
    var pos: nat := 0;
    while pos < |text|
      invariant WrapFrom(text, maxWidth, width, Wrap(pos, current, lines)) == WrapText(text, maxWidth, width)
      decreases |text| - pos
    {
      ghost var before := Wrap(pos, current, lines);
      if IsChineseChar(text, pos) {
        var charLen := Utf8CharLength(text, pos);
        var chineseChar := text[pos..Min(pos + charLen, |text|)];
        var testLine := current + chineseChar;
        if width(testLine) <= maxWidth {
          current := testLine;
        } else if current != [] {
          lines := lines + [current];
          current := chineseChar;
        } else {
          current := chineseChar;
        }
        pos := pos + charLen;
      } else {
        var nextSpace := FindSpace(text, pos);
        var wordEnd := FindWordEnd(text, pos, nextSpace);
        var word := text[pos..wordEnd];
        var testLine := current;
        if testLine != [] && word != [] && word[0] != SPACE {
          testLine := testLine + [SPACE];
        }
        testLine := testLine + word;
        if width(testLine) <= maxWidth {
          current := testLine;
        } else if current != [] {
          lines := lines + [current];
          current := word;
        } else {
          current := word;
        }
        pos := wordEnd;
        if pos < |text| && text[pos] == SPACE {
          pos := pos + 1;
        }
      }
      assert Wrap(pos, current, lines) == Step(text, maxWidth, width, before);
    }
    if current != [] {
      lines := lines + [current];
    }
  }

  /** The scan of wrap_text_lines that cuts a word short at the first
      Chinese lead byte before the next space. */
  method FindWordEnd(text: seq<u8>, pos: nat, nextSpace: nat) returns (wordEnd: nat)
    requires pos <= nextSpace <= |text|
    ensures wordEnd == ChineseFrom(text, pos, nextSpace)
  {
    wordEnd := nextSpace;
    var i := pos;
    while i < wordEnd
      invariant pos <= i <= wordEnd == nextSpace
      invariant ChineseFrom(text, i, nextSpace) == ChineseFrom(text, pos, nextSpace)
    {
      if IsChineseChar(text, i) {
        wordEnd := i;
        break;
      }
      i := i + 1;
    }
  }

  // ---------------------------------------------------------------------------
  // What the wrap promises

  /** A line that is one unit the wrap never splits: one English word (no
      space, no Chinese lead byte) or one Chinese character. */
  predicate Unit(l: seq<u8>)
  {
    || (forall i :: 0 <= i < |l| ==> l[i] != SPACE && !(0xE0 <= l[i] <= 0xEF))
    || (1 <= |l| <= 3 && 0xE0 <= l[0] <= 0xEF)
  }

  /** Every line fits the width, or it is a single word or character that
      is wider than the width on its own. */
  predicate FitsOrUnit(l: seq<u8>, maxWidth: int, width: seq<u8> -> int)
  {
    width(l) <= maxWidth || Unit(l)
  }

  /** The bytes of the text other than spaces, in order. */
  function NonSpace(s: seq<u8>): seq<u8>
  {
    if s == [] then [] else NonSpace(s[..|s| - 1]) + (if s[|s| - 1] == SPACE then [] else [s[|s| - 1]])
  }

  /** All lines, one after another. */
  function Flatten(lines: seq<seq<u8>>): seq<u8>
  {
    if lines == [] then [] else Flatten(lines[..|lines| - 1]) + lines[|lines| - 1]
  }

  lemma {:induction false} NonSpaceConcat(a: seq<u8>, b: seq<u8>)
    ensures NonSpace(a + b) == NonSpace(a) + NonSpace(b)
    decreases |b|
  {
    if b != [] {
      var b' := b[..|b| - 1];
      assert (a + b)[..|a + b| - 1] == a + b';
      NonSpaceConcat(a, b');
    } else {
      assert a + b == a;
    }
  }

  lemma FlattenSnoc(lines: seq<seq<u8>>, l: seq<u8>)
    ensures Flatten(lines + [l]) == Flatten(lines) + l
  {
    assert (lines + [l])[..|lines|] == lines;
  }

  /** The text read so far, as far as the wrap has gone in it. */
  function Read(text: seq<u8>, s: Wrap): seq<u8>
  {
    text[..Min(s.pos, |text|)]
  }

  /** The facts the loop of the wrap keeps. */
  predicate Keeps(text: seq<u8>, maxWidth: int, width: seq<u8> -> int, s: Wrap)
  {
    LinesKept(maxWidth, width, s.lines, s.current) && ContentKept(text, s)
  }

  /** No finished line is empty, and every line so far fits or is a unit. */
  predicate LinesKept(maxWidth: int, width: seq<u8> -> int, lines: seq<seq<u8>>, current: seq<u8>)
  {
    && (forall i :: 0 <= i < |lines| ==> lines[i] != [] && FitsOrUnit(lines[i], maxWidth, width))
    && FitsOrUnit(current, maxWidth, width)
  }

  /** The lines so far hold the bytes read so far, spaces aside. */
  predicate ContentKept(text: seq<u8>, s: Wrap)
  {
    NonSpace(Flatten(s.lines) + s.current) == NonSpace(Read(text, s))
  }

  lemma NonSpaceSpace()
    ensures NonSpace([SPACE]) == []
  {
    assert [SPACE][..0] == [];
  }

  /** The space Joined puts between line and word is not content. */
  lemma JoinedContent(current: seq<u8>, word: seq<u8>)
    ensures NonSpace(Joined(current, word)) == NonSpace(current) + NonSpace(word)
  {
    if current != [] && word != [] && word[0] != SPACE {
      NonSpaceConcat(current + [SPACE], word);
      NonSpaceConcat(current, [SPACE]);
      NonSpaceSpace();
    } else {
      NonSpaceConcat(current, word);
    }
  }

  /** Placing a piece keeps the content of the lines in order and adds the
      piece's, whichever way the choice goes. */
  lemma PlaceContent(pos: nat, current: seq<u8>, lines: seq<seq<u8>>, piece: seq<u8>, test: seq<u8>, fits: bool)
    requires NonSpace(test) == NonSpace(current) + NonSpace(piece)
    ensures var r := Place(pos, current, lines, piece, test, fits);
      NonSpace(Flatten(r.lines) + r.current) == NonSpace(Flatten(lines) + current) + NonSpace(piece)
  {
    var f := Flatten(lines);
    NonSpaceConcat(f, current);
    if fits {
      NonSpaceConcat(f, test);
    } else if current != [] {
      PushContent(lines, current, piece);
    } else {
      assert f + current == f;
      NonSpaceConcat(f, piece);
    }
  }

  /** Finishing the current line and starting the next with piece. */
  lemma PushContent(lines: seq<seq<u8>>, current: seq<u8>, piece: seq<u8>)
    ensures NonSpace(Flatten(lines + [current]) + piece) == NonSpace(Flatten(lines) + current) + NonSpace(piece)
  {
    FlattenSnoc(lines, current);
    NonSpaceConcat(Flatten(lines) + current, piece);
  }

  /** Placing a piece that is a unit, or a test that fits, keeps every line
      non-empty and fitting or whole. */
  lemma PlaceLines(pos: nat, current: seq<u8>, lines: seq<seq<u8>>, piece: seq<u8>, test: seq<u8>, maxWidth: int, width: seq<u8> -> int)
    requires LinesKept(maxWidth, width, lines, current) && Unit(piece)
    ensures var r := Place(pos, current, lines, piece, test, width(test) <= maxWidth);
      LinesKept(maxWidth, width, r.lines, r.current)
  {
  }

  /** An English round reads the word and the space after it, if any. */
  lemma ReadWord(text: seq<u8>, s: Wrap)
    requires s.pos < |text|
    ensures NonSpace(text[..AfterWord(text, s.pos)]) == NonSpace(Read(text, s)) + NonSpace(Word(text, s.pos))
  {
    var end := WordEnd(text, s.pos);
    assert text[..end] == Read(text, s) + Word(text, s.pos);
    NonSpaceConcat(Read(text, s), Word(text, s.pos));
    if AfterWord(text, s.pos) == end + 1 {
      assert text[..end + 1] == text[..end] + [SPACE];
      NonSpaceConcat(text[..end], [SPACE]);
      NonSpaceSpace();
    }
  }

  /** A word is a unit: it holds no space and no Chinese lead byte. */
  lemma WordIsUnit(text: seq<u8>, pos: nat)
    requires pos <= |text|
    ensures Unit(Word(text, pos))
  {
    var end := WordEnd(text, pos);
    var word := Word(text, pos);
    forall i | 0 <= i < |word|
      ensures word[i] != SPACE && !(0xE0 <= word[i] <= 0xEF)
    {
      assert word[i] == text[pos + i];
      assert !IsChineseChar(text, pos + i);
    }
  }

  /** A Chinese round reads the character. */
  lemma ReadChinese(text: seq<u8>, pos: nat)
    requires pos < |text|
    ensures NonSpace(text[..Min(pos + Utf8CharLength(text, pos), |text|)]) == NonSpace(text[..pos]) + NonSpace(ChineseAt(text, pos))
  {
    assert text[..Min(pos + Utf8CharLength(text, pos), |text|)] == text[..pos] + ChineseAt(text, pos);
    NonSpaceConcat(text[..pos], ChineseAt(text, pos));
  }

  lemma ChineseStepKeeps(text: seq<u8>, maxWidth: int, width: seq<u8> -> int, s: Wrap)
    requires s.pos < |text| && IsChineseChar(text, s.pos) && Keeps(text, maxWidth, width, s)
    ensures Keeps(text, maxWidth, width, Step(text, maxWidth, width, s))
  {
    var ch := ChineseAt(text, s.pos);
    var test := s.current + ch;
    var next := s.pos + Utf8CharLength(text, s.pos);
    var r := Place(next, s.current, s.lines, ch, test, width(test) <= maxWidth);
    assert r == Step(text, maxWidth, width, s);
    PlaceLines(next, s.current, s.lines, ch, test, maxWidth, width);
    NonSpaceConcat(s.current, ch);
    PlaceContent(next, s.current, s.lines, ch, test, width(test) <= maxWidth);
    ReadChinese(text, s.pos);
  }

  lemma WordStepKeeps(text: seq<u8>, maxWidth: int, width: seq<u8> -> int, s: Wrap)
    requires s.pos < |text| && !IsChineseChar(text, s.pos) && Keeps(text, maxWidth, width, s)
    ensures Keeps(text, maxWidth, width, Step(text, maxWidth, width, s))
  {
    var word := Word(text, s.pos);
    var test := Joined(s.current, word);
    var next := AfterWord(text, s.pos);
    var r := Place(next, s.current, s.lines, word, test, width(test) <= maxWidth);
    assert r == Step(text, maxWidth, width, s);
    WordIsUnit(text, s.pos);
    PlaceLines(next, s.current, s.lines, word, test, maxWidth, width);
    WordContent(text, maxWidth, width, s, r);
  }

  lemma WordContent(text: seq<u8>, maxWidth: int, width: seq<u8> -> int, s: Wrap, r: Wrap)
    requires s.pos < |text| && ContentKept(text, s)
    requires var word := Word(text, s.pos); var test := Joined(s.current, word);
      r == Place(AfterWord(text, s.pos), s.current, s.lines, word, test, width(test) <= maxWidth)
    ensures ContentKept(text, r)
  {
    var word := Word(text, s.pos);
    var test := Joined(s.current, word);
    JoinedContent(s.current, word);
    PlaceContent(AfterWord(text, s.pos), s.current, s.lines, word, test, width(test) <= maxWidth);
    assert NonSpace(Flatten(r.lines) + r.current) == NonSpace(Read(text, s)) + NonSpace(word);
    ReadWord(text, s);
    assert Read(text, r) == text[..AfterWord(text, s.pos)];
  }

  lemma {:induction false} WrapFromKeeps(text: seq<u8>, maxWidth: int, width: seq<u8> -> int, s: Wrap)
    requires Keeps(text, maxWidth, width, s)
    ensures var lines := WrapFrom(text, maxWidth, width, s);
      && (forall i :: 0 <= i < |lines| ==> lines[i] != [])
      && (forall i :: 0 <= i < |lines| ==> FitsOrUnit(lines[i], maxWidth, width))
      && NonSpace(Flatten(lines)) == NonSpace(text)
    decreases |text| - s.pos
  {
    if s.pos >= |text| {
      assert Read(text, s) == text;
      if s.current != [] {
        FlattenSnoc(s.lines, s.current);
      } else {
        assert Flatten(s.lines) + s.current == Flatten(s.lines);
      }
    } else {
      if IsChineseChar(text, s.pos) {
        ChineseStepKeeps(text, maxWidth, width, s);
      } else {
        WordStepKeeps(text, maxWidth, width, s);
      }
      WrapFromKeeps(text, maxWidth, width, Step(text, maxWidth, width, s));
    }
  }

  /** What wrap_text_lines promises for a text that is not empty: no line is
      empty; every line fits the width unless it is a single word or a
      single Chinese character; and the lines hold the bytes of the text
      other than spaces, all of them and in order. No word is ever split:
      every piece a round reads, each English word and each Chinese
      character, lies whole inside one line, and a line wider than the width
      is exactly one such piece. */
  lemma WrapTextLinesSound(text: seq<u8>, maxWidth: int, width: seq<u8> -> int)
    requires text != []
    ensures var lines := WrapText(text, maxWidth, width);
      && (forall i :: 0 <= i < |lines| ==> lines[i] != [])
      && (forall i :: 0 <= i < |lines| ==> FitsOrUnit(lines[i], maxWidth, width))
      && NonSpace(Flatten(lines)) == NonSpace(text)
      && (forall p :: p in Rounds(text, 0) && p < |text| && Piece(text, p) != [] ==> Held(lines, Piece(text, p)))
      && (forall i :: 0 <= i < |lines| ==> width(lines[i]) <= maxWidth || IsPiece(text, 0, lines[i]))
  {
    var s := Wrap(0, [], []);
    assert Read(text, s) == [];
    assert Flatten(s.lines) + s.current == [];
    WrapFromKeeps(text, maxWidth, width, s);
    forall p | p in Rounds(text, 0) && p < |text| && Piece(text, p) != []
      ensures Held(WrapText(text, maxWidth, width), Piece(text, p))
    {
      WrapFromHoldsPieces(text, maxWidth, width, s, p);
    }
    assert Rounds(text, 0) == [0] + Rounds(text, NextPos(text, 0));
    WrapFromWhole(text, 0, maxWidth, width, s);
  }

  /** Only the empty text is wrapped into the single empty line. */
  lemma WrapEmptyLine(text: seq<u8>, maxWidth: int, width: seq<u8> -> int)
    ensures WrapText(text, maxWidth, width) == [[]] <==> text == []
  {
    if text != [] {
      WrapTextLinesSound(text, maxWidth, width);
    }
  }

  lemma {:induction false} SpacesFrom(text: seq<u8>, maxWidth: int, width: seq<u8> -> int, pos: nat)
    requires forall i :: 0 <= i < |text| ==> text[i] == SPACE
    ensures WrapFrom(text, maxWidth, width, Wrap(pos, [], [])) == []
    decreases |text| - pos
  {
    if pos < |text| {
      var end := WordEnd(text, pos);
      assert end == pos;
      assert Step(text, maxWidth, width, Wrap(pos, [], [])) == Wrap(pos + 1, [], []);
      SpacesFrom(text, maxWidth, width, pos + 1);
    }
  }

  /** A text of spaces alone gives no lines at all. */
  lemma WrapSpacesOnly(text: seq<u8>, maxWidth: int, width: seq<u8> -> int)
    requires text != [] && forall i :: 0 <= i < |text| ==> text[i] == SPACE
    ensures WrapText(text, maxWidth, width) == []
  {
    SpacesFrom(text, maxWidth, width, 0);
  }

  // ---------------------------------------------------------------------------
  // Words are never split

  /** Where the round that starts at pos leaves the position, whatever the
      widths: after the Chinese character, or after the word and the one
      space that follows it. */
  function NextPos(text: seq<u8>, pos: nat): (next: nat)
    requires pos < |text|
    ensures next > pos
  {
    if IsChineseChar(text, pos) then pos + Utf8CharLength(text, pos) else AfterWord(text, pos)
  }

  lemma StepPos(text: seq<u8>, maxWidth: int, width: seq<u8> -> int, s: Wrap)
    requires s.pos < |text|
    ensures Step(text, maxWidth, width, s).pos == NextPos(text, s.pos)
  {
  }

  /** The positions where the rounds of the wrap start, from pos to the end
      of the text. */
  function Rounds(text: seq<u8>, pos: nat): seq<nat>
    decreases |text| - pos
  {
    if pos >= |text| then [] else [pos] + Rounds(text, NextPos(text, pos))
  }

  /** What the round at p reads: the Chinese character or the English word
      that starts there. */
  function Piece(text: seq<u8>, p: nat): seq<u8>
    requires p < |text|
  {
    if IsChineseChar(text, p) then ChineseAt(text, p) else Word(text, p)
  }

  /** The bytes the rounds from pos consume, one round after another. */
  function Consumed(text: seq<u8>, pos: nat): seq<u8>
    decreases |text| - pos
  {
    if pos >= |text| then [] else text[pos..Min(NextPos(text, pos), |text|)] + Consumed(text, NextPos(text, pos))
  }

  /** Each round consumes its piece, and after an English word at most the
      one space that follows it. */
  lemma RoundSlice(text: seq<u8>, p: nat)
    requires p < |text|
    ensures var next := Min(NextPos(text, p), |text|);
      || text[p..next] == Piece(text, p)
      || (!IsChineseChar(text, p) && text[p..next] == Piece(text, p) + [SPACE])
  {
    if !IsChineseChar(text, p) && AfterWord(text, p) == WordEnd(text, p) + 1 {
      assert text[p..AfterWord(text, p)] == Word(text, p) + [SPACE];
    }
  }

  /** The rounds read the text from pos to its end, each starting exactly
      where the one before stopped: nothing is skipped or read twice. */
  lemma {:induction false} RoundsTileText(text: seq<u8>, pos: nat)
    requires pos <= |text|
    ensures Consumed(text, pos) == text[pos..]
    decreases |text| - pos
  {
    if pos < |text| {
      var next := NextPos(text, pos);
      if next < |text| {
        RoundsTileText(text, next);
        assert text[pos..next] + text[next..] == text[pos..];
      } else {
        assert Consumed(text, next) == [];
        assert text[pos..Min(next, |text|)] == text[pos..];
      }
    }
  }

  /** line holds w as a run of consecutive bytes starting at o. */
  predicate At(w: seq<u8>, line: seq<u8>, o: nat)
  {
    o + |w| <= |line| && line[o..o + |w|] == w
  }

  /** w occurs in line as a run of consecutive bytes. */
  ghost predicate Within(w: seq<u8>, line: seq<u8>)
  {
    exists o: nat :: At(w, line, o)
  }

  /** Some line holds w whole. */
  ghost predicate Held(lines: seq<seq<u8>>, w: seq<u8>)
  {
    exists i :: 0 <= i < |lines| && Within(w, lines[i])
  }

  /** The finished lines and the current one. */
  function Open(s: Wrap): seq<seq<u8>>
  {
    s.lines + [s.current]
  }

  lemma WithinPrefix(w: seq<u8>, a: seq<u8>, b: seq<u8>)
    requires Within(w, a)
    ensures Within(w, a + b)
  {
    var o: nat :| At(w, a, o);
    assert (a + b)[o..o + |w|] == a[o..o + |w|];
    assert At(w, a + b, o);
  }

  lemma WithinSuffix(w: seq<u8>, a: seq<u8>)
    ensures Within(w, a + w)
  {
    assert (a + w)[|a|..|a| + |w|] == w;
    assert At(w, a + w, |a|);
  }

  lemma WithinSelf(w: seq<u8>)
    ensures Within(w, w)
  {
    assert w[0..|w|] == w;
    assert At(w, w, 0);
  }

  /** Placing a piece, where test is the current line, a separator and the
      piece, keeps every run some line already held and holds the piece
      whole. */
  lemma PlaceHeld(pos: nat, current: seq<u8>, lines: seq<seq<u8>>, piece: seq<u8>, mid: seq<u8>, test: seq<u8>, fits: bool, w: seq<u8>)
    requires test == current + mid + piece
    ensures var r := Place(pos, current, lines, piece, test, fits);
      && (w != [] && Held(lines + [current], w) ==> Held(Open(r), w))
      && (piece != [] ==> Held(Open(r), piece))
  {
    var r := Place(pos, current, lines, piece, test, fits);
    var last := |Open(r)| - 1;
    if fits {
      assert test == (current + mid) + piece;
      WithinSuffix(piece, current + mid);
      assert Open(r)[last] == test;
    } else {
      WithinSelf(piece);
      assert Open(r)[last] == piece;
    }
    if w != [] && Held(lines + [current], w) {
      var i :| 0 <= i < |lines + [current]| && Within(w, (lines + [current])[i]);
      if i < |lines| {
        assert Open(r)[i] == lines[i];
      } else if fits {
        assert current + mid + piece == current + (mid + piece);
        WithinPrefix(w, current, mid + piece);
        assert Open(r)[i] == test;
      } else {
        assert current != [];
        assert Open(r)[i] == current;
      }
    }
  }

  /** One round keeps every run some line already held, and holds the piece
      it reads whole. */
  lemma StepHeld(text: seq<u8>, maxWidth: int, width: seq<u8> -> int, s: Wrap, w: seq<u8>)
    requires s.pos < |text|
    ensures var r := Step(text, maxWidth, width, s);
      && (w != [] && Held(Open(s), w) ==> Held(Open(r), w))
      && (Piece(text, s.pos) != [] ==> Held(Open(r), Piece(text, s.pos)))
  {
    if IsChineseChar(text, s.pos) {
      var ch := ChineseAt(text, s.pos);
      var test := s.current + ch;
      assert test == s.current + [] + ch;
      PlaceHeld(s.pos + Utf8CharLength(text, s.pos), s.current, s.lines, ch, [], test, width(test) <= maxWidth, w);
    } else {
      var word := Word(text, s.pos);
      var test := Joined(s.current, word);
      var mid := if s.current != [] && word != [] && word[0] != SPACE then [SPACE] else [];
      assert test == s.current + mid + word;
      PlaceHeld(AfterWord(text, s.pos), s.current, s.lines, word, mid, test, width(test) <= maxWidth, w);
    }
  }

  /** A run some line holds is still held by some line at the end. */
  lemma {:induction false} WrapFromKeepsHeld(text: seq<u8>, maxWidth: int, width: seq<u8> -> int, s: Wrap, w: seq<u8>)
    requires w != [] && Held(Open(s), w)
    ensures Held(WrapFrom(text, maxWidth, width, s), w)
    decreases |text| - s.pos
  {
    if s.pos >= |text| {
      var i :| 0 <= i < |Open(s)| && Within(w, Open(s)[i]);
      if s.current != [] {
        assert WrapFrom(text, maxWidth, width, s) == Open(s);
      } else {
        assert i < |s.lines| && Open(s)[i] == s.lines[i];
        assert WrapFrom(text, maxWidth, width, s) == s.lines;
      }
    } else {
      StepHeld(text, maxWidth, width, s, w);
      WrapFromKeepsHeld(text, maxWidth, width, Step(text, maxWidth, width, s), w);
    }
  }

  /** Every piece a round from s reads is held whole by some line at the
      end. */
  lemma {:induction false} WrapFromHoldsPieces(text: seq<u8>, maxWidth: int, width: seq<u8> -> int, s: Wrap, p: nat)
    requires p in Rounds(text, s.pos) && p < |text| && Piece(text, p) != []
    ensures Held(WrapFrom(text, maxWidth, width, s), Piece(text, p))
    decreases |text| - s.pos
  {
    var r := Step(text, maxWidth, width, s);
    StepPos(text, maxWidth, width, s);
    StepHeld(text, maxWidth, width, s, []);
    if p == s.pos {
      WrapFromKeepsHeld(text, maxWidth, width, r, Piece(text, p));
    } else {
      WrapFromHoldsPieces(text, maxWidth, width, r, p);
    }
  }

  /** l is what some round from q reads. */
  ghost predicate IsPiece(text: seq<u8>, q: nat, l: seq<u8>)
  {
    exists p :: p in Rounds(text, q) && p < |text| && l == Piece(text, p)
  }

  /** l fits the width, or it is one whole piece. */
  ghost predicate FitsOrPiece(text: seq<u8>, q: nat, maxWidth: int, width: seq<u8> -> int, l: seq<u8>)
  {
    width(l) <= maxWidth || IsPiece(text, q, l)
  }

  /** The invariant behind the no-split promise: every line so far fits or
      is one piece, and the rounds are those that start from q. */
  ghost predicate WholeKept(text: seq<u8>, q: nat, maxWidth: int, width: seq<u8> -> int, s: Wrap)
  {
    && (forall i :: 0 <= i < |s.lines| ==> FitsOrPiece(text, q, maxWidth, width, s.lines[i]))
    && (s.current == [] || FitsOrPiece(text, q, maxWidth, width, s.current))
    && (s.pos < |text| ==> s.pos in Rounds(text, q))
  }

  /** The round after a round from q is a round from q too. */
  lemma {:induction false} RoundsNext(text: seq<u8>, q: nat, p: nat)
    requires p in Rounds(text, q) && p < |text| && NextPos(text, p) < |text|
    ensures NextPos(text, p) in Rounds(text, q)
    decreases |text| - q
  {
    if p != q {
      RoundsNext(text, NextPos(text, q), p);
    }
  }

  lemma StepWhole(text: seq<u8>, q: nat, maxWidth: int, width: seq<u8> -> int, s: Wrap)
    requires s.pos < |text| && WholeKept(text, q, maxWidth, width, s)
    ensures WholeKept(text, q, maxWidth, width, Step(text, maxWidth, width, s))
  {
    var r := Step(text, maxWidth, width, s);
    StepPos(text, maxWidth, width, s);
    if r.pos < |text| {
      RoundsNext(text, q, s.pos);
    }
    assert IsPiece(text, q, Piece(text, s.pos));
  }

  lemma {:induction false} WrapFromWhole(text: seq<u8>, q: nat, maxWidth: int, width: seq<u8> -> int, s: Wrap)
    requires WholeKept(text, q, maxWidth, width, s)
    ensures var lines := WrapFrom(text, maxWidth, width, s);
      forall i :: 0 <= i < |lines| ==> FitsOrPiece(text, q, maxWidth, width, lines[i])
    decreases |text| - s.pos
  {
    if s.pos < |text| {
      StepWhole(text, q, maxWidth, width, s);
      WrapFromWhole(text, q, maxWidth, width, Step(text, maxWidth, width, s));
      assert WrapFrom(text, maxWidth, width, s) == WrapFrom(text, maxWidth, width, Step(text, maxWidth, width, s));
    } else if s.current != [] {
      var lines := WrapFrom(text, maxWidth, width, s);
      assert lines == s.lines + [s.current];
      forall i | 0 <= i < |lines|
        ensures FitsOrPiece(text, q, maxWidth, width, lines[i])
      {
        if i < |s.lines| {
          assert lines[i] == s.lines[i];
        }
      }
    } else {
      assert WrapFrom(text, maxWidth, width, s) == s.lines;
    }
  }

  // ---------------------------------------------------------------------------
  // Pages

  /** The lines of a page in estimate_total_pages: the content area between
      the title and the footer in 24-pixel lines, less 15 percent. */
  function LinesPerPage(): (n: int)
    ensures n == 12
  {
    var contentStart := SCREEN_MARGIN + 20 + TITLE_CONTENT_SPACING;
    var contentEnd := LCD_HEIGHT - SCREEN_MARGIN - CONTENT_FOOTER_SPACING;
    (contentEnd - contentStart) / LINE_HEIGHT * 85 / 100
  }

  /** The line estimate of estimate_total_pages: fifty bytes a line, times 1.4
      for the wrapping; on a 32-bit size_t it cannot overflow. */
  function EstimatedLines(fileSize: u32): (n: nat)
    ensures n < 0x1_0000_0000
  {
    fileSize / 50 * 7 / 5
  }

  /** estimate_total_pages: enough 12-line pages for the estimated lines, and
      no more, but at least one. */
  function EstimateTotalPages(fileSize: u32): (pages: int)
    ensures pages >= 1
    ensures EstimatedLines(fileSize) <= pages * 12
    ensures pages == 1 || (pages - 1) * 12 < EstimatedLines(fileSize)
  {
    var perPage := LinesPerPage();
    var lines := EstimatedLines(fileSize);
    var estimated := (lines + perPage - 1) / perPage;
    if estimated > 0 then estimated else 1
  }

  /** The check at the top of load_page_content: the page number is not
      negative, below the number of pages, and below the count of page
      starts less one, taken as size_t and then as int. */
  predicate PageInRange(pageNum: i32, totalPages: i32, startCount: u32)
  {
    !(pageNum < 0 || pageNum >= totalPages || pageNum >= I32(U32(startCount as int - 1)))
  }

  /** An accepted page exists. When the page count was taken from the page
      starts, as the pre-scan does, the check accepts exactly the pages
      0 to total - 1; with no page starts at all, size_t wraps and no page
      is accepted. */
  lemma PageRange(pageNum: i32, totalPages: i32, startCount: u32)
    ensures PageInRange(pageNum, totalPages, startCount) ==> 0 <= pageNum < totalPages
    ensures totalPages == I32(U32(startCount as int - 1)) ==>
      (PageInRange(pageNum, totalPages, startCount) <==> 0 <= pageNum < totalPages)
    ensures startCount == 0 ==> !PageInRange(pageNum, totalPages, startCount)
  {
  }
}
