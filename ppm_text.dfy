/** The plain-text (P3) image layout the camera produces (src/camera.rs): each pixel as three
    decimal channel values, pixels of a row joined by spaces, rows joined by newlines, after a
    header naming the format, the size and the largest channel value. A small reader is given
    beside the writer so that the layout can be checked by reading it back. */
module PpmText {
  import opened Wrappers

  /** A channel value as `u8` holds it. */
  type Byte = n: nat | n < 256

  datatype Pixel = Pixel(r: Byte, g: Byte, b: Byte)

  // ---------------------------------------------------------------------------------------
  // Decimal numbers, as `format!("{}", n)` writes them

  predicate IsDigit(c: char) {
    '0' <= c <= '9'
  }

  function DigitChar(d: nat): (c: char)
    requires d < 10
    ensures IsDigit(c) && c as int - '0' as int == d
  {
    ('0' as int + d) as char
  }

  /** The decimal digits of `n`, without leading zeros. */
  function Decimal(n: nat): (s: string)
    ensures |s| > 0 && forall i :: 0 <= i < |s| ==> IsDigit(s[i])
    ensures |s| == 1 || s[0] != '0'
    decreases n
  {
    if n < 10 then [DigitChar(n)] else Decimal(n / 10) + [DigitChar(n % 10)]
  }

  /** Reads a non-empty run of decimal digits. */
  function ParseDecimal(s: string): Option<nat>
    decreases |s|
  {
    if |s| == 0 || !IsDigit(s[|s| - 1]) then None
    else if |s| == 1 then Some(s[0] as int - '0' as int)
    else
      match ParseDecimal(s[..|s| - 1])
      case None => None
      case Some(high) => Some(high * 10 + (s[|s| - 1] as int - '0' as int))
  }

  lemma {:induction false} DecimalRoundTrip(n: nat)
    ensures ParseDecimal(Decimal(n)) == Some(n)
    decreases n
  {
    if n >= 10 {
      var s := Decimal(n);
      DecimalRoundTrip(n / 10);
      assert s[..|s| - 1] == Decimal(n / 10);
    }
  }

  // ---------------------------------------------------------------------------------------
  // Joining with a separator and splitting at it

  /** `join(sep)`: the parts with one separator between neighbours and none at the ends. */
  function Join(parts: seq<string>, sep: char): string
    decreases |parts|
  {
    if |parts| == 0 then ""
    else if |parts| == 1 then parts[0]
    else parts[0] + [sep] + Join(parts[1..], sep)
  }

  /** The pieces of `s` between separators (always at least one). */
  function Split(s: string, sep: char): (parts: seq<string>)
    ensures |parts| > 0
    decreases |s|
  {
    if |s| == 0 then [""]
    else
      var rest := Split(s[1..], sep);
      if s[0] == sep then [""] + rest else [[s[0]] + rest[0]] + rest[1..]
  }

  lemma {:induction false} SplitWithoutSeparator(a: string, sep: char)
    requires sep !in a
    ensures Split(a, sep) == [a]
    decreases |a|
  {
    if |a| > 0 {
      SplitWithoutSeparator(a[1..], sep);
      assert [a[0]] + a[1..] == a;
    }
  }

  lemma {:induction false} SplitAtFirstSeparator(a: string, b: string, sep: char)
    requires sep !in a
    ensures Split(a + [sep] + b, sep) == [a] + Split(b, sep)
    decreases |a|
  {
    var s := a + [sep] + b;
    if |a| == 0 {
      assert s[1..] == b;
    } else {
      assert s[1..] == a[1..] + [sep] + b;
      SplitAtFirstSeparator(a[1..], b, sep);
      assert [a[0]] + a[1..] == a;
    }
  }

  /** Splitting undoes joining when no part contains the separator. */
  lemma {:induction false} SplitJoin(parts: seq<string>, sep: char)
    requires |parts| > 0
    requires forall i :: 0 <= i < |parts| ==> sep !in parts[i]
    ensures Split(Join(parts, sep), sep) == parts
    decreases |parts|
  {
    if |parts| == 1 {
      SplitWithoutSeparator(parts[0], sep);
    } else {
      SplitJoin(parts[1..], sep);
      SplitAtFirstSeparator(parts[0], Join(parts[1..], sep), sep);
      assert [parts[0]] + parts[1..] == parts;
    }
  }

  lemma {:induction false} JoinConcat(xs: seq<string>, ys: seq<string>, sep: char)
    requires |xs| > 0 && |ys| > 0
    ensures Join(xs + ys, sep) == Join(xs, sep) + [sep] + Join(ys, sep)
    decreases |xs|
  {
    if |xs| > 1 {
      assert (xs + ys)[1..] == xs[1..] + ys;
      JoinConcat(xs[1..], ys, sep);
    }
  }

  lemma {:induction false} JoinAvoids(parts: seq<string>, sep: char, c: char)
    requires c != sep
    requires forall i :: 0 <= i < |parts| ==> c !in parts[i]
    ensures c !in Join(parts, sep)
    decreases |parts|
  {
    if |parts| > 1 {
      JoinAvoids(parts[1..], sep, c);
    }
  }

  // ---------------------------------------------------------------------------------------
  // The layout

  /** `format!("{} {} {}", r, g, b)` */
  function PixelText(p: Pixel): (text: string)
    ensures Split(text, ' ') == [Decimal(p.r), Decimal(p.g), Decimal(p.b)]
    ensures ReadLine(text) == Some([p.r as nat, p.g as nat, p.b as nat])
  {
    var r, g, b := Decimal(p.r), Decimal(p.g), Decimal(p.b);
    DecimalHasOnlyDigits(r);
    DecimalHasOnlyDigits(g);
    DecimalHasOnlyDigits(b);
    SpacedTokens(r, g, b);
    ParsePixelTokens(p, [], []);
    assert [r, g, b] + [] == [r, g, b];
    assert [p.r as nat, p.g as nat, p.b as nat] + [] == [p.r as nat, p.g as nat, p.b as nat];
    r + " " + g + " " + b
  }

  /** Three words without spaces, joined by single spaces, split back into the three words. */
  lemma SpacedTokens(r: string, g: string, b: string)
    requires ' ' !in r && ' ' !in g && ' ' !in b
    ensures Split(r + " " + g + " " + b, ' ') == [r, g, b]
  {
    SplitWithoutSeparator(b, ' ');
    SplitAtFirstSeparator(g, b, ' ');
    SplitAtFirstSeparator(r, g + [' '] + b, ' ');
    assert r + " " + g + " " + b == r + [' '] + (g + [' '] + b);
  }

  /** `chunks(n)`: consecutive groups of `n`, the last one possibly shorter. */
  function Chunks<T>(s: seq<T>, n: nat): (groups: seq<seq<T>>)
    requires n > 0
    decreases |s|
  {
    if |s| == 0 then [] else if |s| <= n then [s] else [s[..n]] + Chunks(s[n..], n)
  }

  /** Row `k` of a sequence laid out as `height` rows of `width`. */
  function Row<T>(s: seq<T>, width: nat, height: nat, k: nat): (row: seq<T>)
    requires |s| == width * height && k < height
    ensures |row| == width
  {
    RowBounds(width, height, k);
    s[k * width..(k + 1) * width]
  }

  lemma RowBounds(width: nat, height: nat, k: nat)
    requires k < height
    ensures 0 <= k * width <= (k + 1) * width <= width * height
    ensures (k + 1) * width == k * width + width
  {
    var rest: nat := height - (k + 1);
    assert (k + 1) * width == k * width + width;
    assert width * height == (k + 1) * width + rest * width by {
      assert height == (k + 1) + rest;
    }
    assert rest * width >= 0;
  }

  /** A pixel sequence of `height` full rows chunks into exactly those rows. */
  lemma {:induction false} ChunksOfRows<T>(s: seq<T>, width: nat, height: nat)
    requires width > 0 && |s| == width * height
    ensures |Chunks(s, width)| == height
    ensures forall k :: 0 <= k < height ==> Chunks(s, width)[k] == Row(s, width, height, k)
    decreases height
  {
    if height > 1 {
      var rest := s[width..];
      assert width * height == width * (height - 1) + width;
      ChunksOfRows(rest, width, height - 1);
      forall k | 0 <= k < height
        ensures Chunks(s, width)[k] == Row(s, width, height, k)
      {
        RowBounds(width, height, k);
        if k > 0 {
          RowOfRest(s, width, k);
          assert Row(rest, width, height - 1, k - 1) == rest[(k - 1) * width..k * width];
        }
      }
    } else if height == 1 {
      assert s[0 * width..(0 + 1) * width] == s;
    }
  }

  lemma RowOfRest<T>(s: seq<T>, width: nat, k: nat)
    requires 0 < k && (k + 1) * width <= |s|
    ensures s[width..][(k - 1) * width..k * width] == s[k * width..(k + 1) * width]
  {
    assert (k - 1) * width + width == k * width;
    assert k * width + width == (k + 1) * width;
  }

  /** Appending one more row of `width` items keeps the earlier rows and makes the new one last. */
  lemma RowOfAppend<T>(a: seq<T>, b: seq<T>, width: nat, rows: nat, k: nat)
    requires |a| == width * rows && |b| == width && k <= rows
    ensures |a + b| == width * (rows + 1)
    ensures Row(a + b, width, rows + 1, k) == if k < rows then Row(a, width, rows, k) else b
  {
    assert width * (rows + 1) == width * rows + width;
    RowBounds(width, rows + 1, k);
    if k < rows {
      RowBounds(width, rows, k);
      assert (a + b)[k * width..(k + 1) * width] == a[k * width..(k + 1) * width];
    } else {
      assert k * width == width * rows;
      assert (a + b)[k * width..(k + 1) * width] == b;
    }
  }

  /** The rows one after the other, as a single sequence. */
  function Flatten<T>(rows: seq<seq<T>>): seq<T>
    decreases |rows|
  {
    if |rows| == 0 then [] else Flatten(rows[..|rows| - 1]) + rows[|rows| - 1]
  }

  /** Flattening rows of `width` items and cutting the result into rows of `width` gives the
      same rows back. */
  lemma {:induction false} FlattenRows<T>(rows: seq<seq<T>>, width: nat)
    requires forall i :: 0 <= i < |rows| ==> |rows[i]| == width
    ensures |Flatten(rows)| == width * |rows|
    ensures forall k :: 0 <= k < |rows| ==> Row(Flatten(rows), width, |rows|, k) == rows[k]
    decreases |rows|
  {
    if |rows| > 0 {
      var n := |rows| - 1;
      var front := rows[..n];
      FlattenRows(front, width);
      forall k | 0 <= k < |rows|
        ensures Row(Flatten(rows), width, |rows|, k) == rows[k]
      {
        RowOfAppend(Flatten(front), rows[n], width, n, k);
      }
    }
  }

  /** One row: its pixels' texts joined by single spaces. */
  function RowText(row: seq<Pixel>): string {
    Join(seq(|row|, i requires 0 <= i < |row| => PixelText(row[i])), ' ')
  }

  /** The frame: the rows of `width` pixels, joined by newlines, with no newline at the end. */
  function FrameText(pixels: seq<Pixel>, width: nat): (text: string)
    requires width > 0
    ensures |pixels| <= width ==> text == RowText(pixels)
  {
    var rows := Chunks(pixels, width);
    Join(seq(|rows|, k requires 0 <= k < |rows| => RowText(rows[k])), '\n')
  }

  /** The file: `"P3\n{width} {height}\n{max_value}\n{frame}\n"`, built line by line. */
  function FileText(width: nat, height: nat, maxValue: nat, frame: string): (text: string)
    ensures |text| > 3 && text[..3] == "P3\n" && text[|text| - 1] == '\n'
  {
    "P3" + "\n" + ((Decimal(width) + " " + Decimal(height)) + "\n" + (Decimal(maxValue) + "\n" + (frame + "\n")))
  }

  // ---------------------------------------------------------------------------------------
  // Reading the layout back

  /** The three channel values of each pixel, in order. */
  function Channels(row: seq<Pixel>): seq<nat>
    decreases |row|
  {
    if |row| == 0 then [] else [row[0].r as nat, row[0].g as nat, row[0].b as nat] + Channels(row[1..])
  }

  /** The decimal numbers of a line, separated by single spaces. */
  function ParseNumbers(tokens: seq<string>): Option<seq<nat>>
    decreases |tokens|
  {
    if |tokens| == 0 then Some([])
    else
      var head := ParseDecimal(tokens[0]);
      var tail := ParseNumbers(tokens[1..]);
      if head.Some? && tail.Some? then Some([head.value] + tail.value) else None
  }

  function ReadLine(line: string): Option<seq<nat>> {
    ParseNumbers(Split(line, ' '))
  }

  /** The decimal tokens of a row, three per pixel. */
  function RowTokens(row: seq<Pixel>): seq<string>
    decreases |row|
  {
    if |row| == 0 then []
    else [Decimal(row[0].r), Decimal(row[0].g), Decimal(row[0].b)] + RowTokens(row[1..])
  }

  lemma {:induction false} RowTextIsTokens(row: seq<Pixel>)
    requires |row| > 0
    ensures RowText(row) == Join(RowTokens(row), ' ')
    decreases |row|
  {
    var p := row[0];
    var first := [Decimal(p.r), Decimal(p.g), Decimal(p.b)];
    assert first[1..][1..] == [Decimal(p.b)];
    assert Join(first[1..][1..], ' ') == Decimal(p.b);
    assert first[1..] == [Decimal(p.g), Decimal(p.b)];
    assert Join(first[1..], ' ') == Decimal(p.g) + [' '] + Decimal(p.b);
    assert Join(first, ' ') == PixelText(p);
    var texts := seq(|row|, i requires 0 <= i < |row| => PixelText(row[i]));
    assert RowText(row) == Join(texts, ' ');
    if |row| == 1 {
      assert RowTokens(row) == first + RowTokens(row[1..]) == first;
    } else {
      assert texts[1..] == seq(|row| - 1, i requires 0 <= i < |row| - 1 => PixelText(row[1..][i]));
      assert Join(texts, ' ') == PixelText(p) + [' '] + RowText(row[1..]);
      RowTextIsTokens(row[1..]);
      JoinConcat(first, RowTokens(row[1..]), ' ');
    }
  }

  lemma {:induction false} ParseRowTokens(row: seq<Pixel>)
    ensures ParseNumbers(RowTokens(row)) == Some(Channels(row))
    decreases |row|
  {
    if |row| > 0 {
      ParseRowTokens(row[1..]);
      ParsePixelTokens(row[0], RowTokens(row[1..]), Channels(row[1..]));
    }
  }

  /** A pixel's three tokens in front of a line add its three channel values in front. */
  lemma ParsePixelTokens(p: Pixel, tokens: seq<string>, numbers: seq<nat>)
    requires ParseNumbers(tokens) == Some(numbers)
    ensures ParseNumbers([Decimal(p.r), Decimal(p.g), Decimal(p.b)] + tokens)
         == Some([p.r as nat, p.g as nat, p.b as nat] + numbers)
  {
    DecimalRoundTrip(p.r);
    DecimalRoundTrip(p.g);
    DecimalRoundTrip(p.b);
    ParseCons(Decimal(p.b), tokens, p.b, numbers);
    ParseCons(Decimal(p.g), [Decimal(p.b)] + tokens, p.g, [p.b as nat] + numbers);
    ParseCons(Decimal(p.r), [Decimal(p.g)] + ([Decimal(p.b)] + tokens), p.r, [p.g as nat] + ([p.b as nat] + numbers));
    assert [Decimal(p.r), Decimal(p.g), Decimal(p.b)] + tokens == [Decimal(p.r)] + ([Decimal(p.g)] + ([Decimal(p.b)] + tokens));
    assert [p.r as nat, p.g as nat, p.b as nat] + numbers == [p.r as nat] + ([p.g as nat] + ([p.b as nat] + numbers));
  }

  /** A number token in front of a line adds its value in front of the line's numbers. */
  lemma ParseCons(token: string, tokens: seq<string>, n: nat, numbers: seq<nat>)
    requires ParseDecimal(token) == Some(n) && ParseNumbers(tokens) == Some(numbers)
    ensures ParseNumbers([token] + tokens) == Some([n] + numbers)
  {
    assert ([token] + tokens)[1..] == tokens;
  }

  /** Three tokens per pixel, none holding a space or a newline. */
  lemma {:induction false} RowTokensShape(row: seq<Pixel>)
    ensures |RowTokens(row)| == 3 * |row|
    ensures forall i :: 0 <= i < |RowTokens(row)| ==> ' ' !in RowTokens(row)[i] && '\n' !in RowTokens(row)[i]
    decreases |row|
  {
    if |row| > 0 {
      var t := RowTokens(row);
      RowTokensShape(row[1..]);
      forall i | 0 <= i < |t| ensures ' ' !in t[i] && '\n' !in t[i] {
        if i < 3 {
          DecimalHasOnlyDigits(t[i]);
        } else {
          assert t[i] == RowTokens(row[1..])[i - 3];
        }
      }
    }
  }

  lemma DecimalHasOnlyDigits(s: string)
    requires forall i :: 0 <= i < |s| ==> IsDigit(s[i])
    ensures ' ' !in s && '\n' !in s
  {
  }

  /** Reading a row back gives its pixels' channel values, in order. */
  lemma {:induction false} RowReadsBack(row: seq<Pixel>)
    requires |row| > 0
    ensures ReadLine(RowText(row)) == Some(Channels(row))
    ensures '\n' !in RowText(row)
  {
    RowTextIsTokens(row);
    ParseRowTokens(row);
    RowTokensShape(row);
    SplitJoin(RowTokens(row), ' ');
    JoinAvoids(RowTokens(row), ' ', '\n');
  }

  /** The texts of a frame's rows. */
  function RowTexts(rows: seq<seq<Pixel>>): seq<string> {
    seq(|rows|, k requires 0 <= k < |rows| => RowText(rows[k]))
  }

  /** Joined rows followed by the final newline split back into the rows and an empty piece. */
  lemma {:induction false} RowLines(rows: seq<seq<Pixel>>)
    requires |rows| > 0
    requires forall k :: 0 <= k < |rows| ==> |rows[k]| > 0
    ensures Split(Join(RowTexts(rows), '\n') + "\n", '\n') == RowTexts(rows) + [""]
  {
    var texts := RowTexts(rows);
    forall k | 0 <= k < |texts| ensures '\n' !in texts[k] {
      RowReadsBack(rows[k]);
    }
    JoinConcat(texts, [""], '\n');
    assert Join([""], '\n') == "";
    assert Join(texts, '\n') + "\n" == Join(texts + [""], '\n');
    assert forall i :: 0 <= i < |texts + [""]| ==> '\n' !in (texts + [""])[i];
    SplitJoin(texts + [""], '\n');
  }

  /** The frame followed by the final newline splits into its rows' texts and an empty piece. */
  lemma {:induction false} FrameLines(pixels: seq<Pixel>, width: nat, height: nat)
    requires width > 0 && height > 0 && |pixels| == width * height
    ensures var lines := Split(FrameText(pixels, width) + "\n", '\n');
      && |lines| == height + 1
      && (forall k :: 0 <= k < height ==>
            ReadLine(lines[k]) == Some(Channels(Row(pixels, width, height, k))))
      && lines[height] == ""
  {
    var rows := Chunks(pixels, width);
    ChunksOfRows(pixels, width, height);
    assert |rows| == height;
    assert FrameText(pixels, width) == Join(RowTexts(rows), '\n');
    RowLines(rows);
    var lines := Split(FrameText(pixels, width) + "\n", '\n');
    assert lines == RowTexts(rows) + [""];
    forall k | 0 <= k < height
      ensures ReadLine(lines[k]) == Some(Channels(Row(pixels, width, height, k)))
    {
      RowOfFrame(rows, lines, k);
      assert rows[k] == Row(pixels, width, height, k);
    }
  }

  lemma RowOfFrame(rows: seq<seq<Pixel>>, lines: seq<string>, k: nat)
    requires k < |rows| && |rows[k]| > 0 && lines == RowTexts(rows) + [""]
    ensures ReadLine(lines[k]) == Some(Channels(rows[k]))
  {
    assert lines[k] == RowText(rows[k]);
    RowReadsBack(rows[k]);
  }

  /** The size line reads back as the two numbers it was written from. */
  lemma SizeLine(width: nat, height: nat)
    ensures ReadLine(Decimal(width) + " " + Decimal(height)) == Some([width, height])
    ensures '\n' !in Decimal(width) + " " + Decimal(height)
  {
    DecimalHasOnlyDigits(Decimal(width));
    DecimalHasOnlyDigits(Decimal(height));
    DecimalRoundTrip(width);
    DecimalRoundTrip(height);
    SplitAtFirstSeparator(Decimal(width), Decimal(height), ' ');
    SplitWithoutSeparator(Decimal(height), ' ');
    var tokens := [Decimal(width), Decimal(height)];
    assert Split(Decimal(width) + " " + Decimal(height), ' ') == tokens;
    assert tokens[1..][1..] == [];
    assert ParseNumbers(tokens[1..][1..]) == Some([]);
    assert ParseNumbers(tokens[1..]) == Some([height] + []);
    assert ParseNumbers(tokens) == Some([width] + ([height] + []));
    assert [width] + ([height] + []) == [width, height];
  }

  /** A single number's line reads back as that number. */
  lemma NumberLine(n: nat)
    ensures ReadLine(Decimal(n)) == Some([n])
    ensures '\n' !in Decimal(n)
  {
    DecimalHasOnlyDigits(Decimal(n));
    DecimalRoundTrip(n);
    SplitWithoutSeparator(Decimal(n), ' ');
    assert [Decimal(n)][1..] == [];
    var tokens := [Decimal(n)];
    assert ParseNumbers(tokens[1..]) == Some([]);
    assert ParseDecimal(tokens[0]) == Some(n);
    assert ParseNumbers(tokens) == Some([n] + []);
    assert [n] + [] == [n];
    assert ReadLine(Decimal(n)) == ParseNumbers(tokens);
  }

  /** Whatever the frame, the file reads back as the format tag, the size and the largest
      channel value, followed by the pieces of the frame and its final newline. */
  lemma HeaderReadsBack(width: nat, height: nat, maxValue: nat, frame: string)
    ensures var lines := Split(FileText(width, height, maxValue, frame), '\n');
      && |lines| >= 4
      && lines[0] == "P3"
      && ReadLine(lines[1]) == Some([width, height])
      && ReadLine(lines[2]) == Some([maxValue])
      && lines[3..] == Split(frame + "\n", '\n')
  {
    var sizeLine := Decimal(width) + " " + Decimal(height);
    var maxLine := Decimal(maxValue);
    var body := frame + "\n";
    SizeLine(width, height);
    NumberLine(maxValue);
    HeaderLines(sizeLine, maxLine, body);
  }

  /** The three header lines come off the front of the file, one per newline. */
  lemma HeaderLines(sizeLine: string, maxLine: string, body: string)
    requires '\n' !in sizeLine && '\n' !in maxLine
    ensures Split("P3" + "\n" + (sizeLine + "\n" + (maxLine + "\n" + body)), '\n')
         == ["P3", sizeLine, maxLine] + Split(body, '\n')
  {
    SplitAtFirstSeparator(maxLine, body, '\n');
    SplitAtFirstSeparator(sizeLine, maxLine + "\n" + body, '\n');
    SplitAtFirstSeparator("P3", sizeLine + "\n" + (maxLine + "\n" + body), '\n');
  }

  /** Reading the file back line by line gives the format tag, the size, the largest channel
      value, then each row's channel values in order, and an empty last piece after the final
      newline. */
  lemma {:induction false} FileReadsBack(pixels: seq<Pixel>, width: nat, height: nat)
    requires width > 0 && height > 0 && |pixels| == width * height
    ensures var lines := Split(FileText(width, height, 255, FrameText(pixels, width)), '\n');
      && |lines| == height + 4
      && lines[0] == "P3"
      && ReadLine(lines[1]) == Some([width, height])
      && ReadLine(lines[2]) == Some([255])
      && (forall k :: 0 <= k < height ==>
            ReadLine(lines[3 + k]) == Some(Channels(Row(pixels, width, height, k))))
      && lines[height + 3] == ""
  {
    var frame := FrameText(pixels, width);
    FrameLines(pixels, width, height);
    HeaderReadsBack(width, height, 255, frame);
    var lines := Split(FileText(width, height, 255, frame), '\n');
    var rows := Split(frame + "\n", '\n');
    forall k | 0 <= k < height
      ensures ReadLine(lines[3 + k]) == Some(Channels(Row(pixels, width, height, k)))
    {
      assert lines[3 + k] == lines[3..][k] == rows[k];
    }
    assert lines[height + 3] == rows[height];
  }
}
