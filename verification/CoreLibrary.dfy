/** The generator of the embedded core library: source text as string literals, read back by the language's lexer. */
module CoreLibrary {
  import opened Base

  // ----- Reading a string literal -----

  function HexDigit(c: char): (r: Option<nat>)
    ensures r.Some? ==> r.value < 16
  {
    if '0' <= c <= '9' then Some(c as nat - '0' as nat)
    else if 'a' <= c <= 'f' then Some(c as nat - 'a' as nat + 10)
    else if 'A' <= c <= 'F' then Some(c as nat - 'A' as nat + 10)
    else None
  }

  /** The digits of `\u{...}` up to the closing brace: at most six, at least one. */
  function HexRun(s: string, digits: nat, value: nat): (r: Option<(nat, string)>)
    ensures r.Some? ==> |r.value.1| < |s|
    decreases s
  {
    if s == "" then None
    else if s[0] == '}' then (if digits == 0 then None else Some((value, s[1..])))
    else if HexDigit(s[0]).None? || digits == 6 then None
    else HexRun(s[1..], digits + 1, value * 16 + HexDigit(s[0]).value)
  }

  /** One escape sequence, and the text behind it. */
  function EscapeSequence(s: string): (r: Option<(char, string)>)
    requires s != "" && s[0] == '\\'
    ensures r.Some? ==> |r.value.1| < |s|
  {
    if |s| == 1 then None
    else if s[1] == 'n' then Some(('\n', s[2..]))
    else if s[1] == 't' then Some(('\t', s[2..]))
    else if s[1] == 'r' then Some(('\r', s[2..]))
    else if s[1] == '"' then Some(('"', s[2..]))
    else if s[1] == '\\' then Some(('\\', s[2..]))
    else if s[1] == '$' then Some(('$', s[2..]))
    else if s[1] == 'e' then Some((0x1b as char, s[2..]))
    else if s[1] == 'x' then
      if |s| < 4 || HexDigit(s[2]).None? || HexDigit(s[3]).None? then None
      else
        var value := HexDigit(s[2]).value * 16 + HexDigit(s[3]).value;
        if value > 0x7f then None else Some((value as char, s[4..]))
    else if s[1] == 'u' && |s| > 2 && s[2] == '{' then
      var run := HexRun(s[3..], 0, 0);
      if run.None? || 0xD800 <= run.value.0 <= 0xDFFF || run.value.0 > 0x10FFFF then None
      else Some((run.value.0 as char, run.value.1))
    else None
  }

  // ----- Every character has an escape -----

  function HexChar(d: nat): (c: char)
    requires d < 16
    ensures HexDigit(c) == Some(d)
  {
    if d < 10 then ('0' as nat + d) as char else ('a' as nat + (d - 10)) as char
  }

  /** Hexadecimal digits without leading zeros. */
  function Hex(n: nat): (s: string)
    ensures s != ""
    ensures (n < 0x10 ==> |s| == 1) && (n < 0x100 ==> |s| <= 2) && (n < 0x1000 ==> |s| <= 3)
    ensures (n < 0x1_0000 ==> |s| <= 4) && (n < 0x10_0000 ==> |s| <= 5) && (n < 0x100_0000 ==> |s| <= 6)
  {
    if n < 16 then [HexChar(n)] else Hex(n / 16) + [HexChar(n % 16)]
  }

  lemma {:induction false} HexReads(n: nat, t: string)
    requires |Hex(n)| <= 6
    ensures HexRun(Hex(n) + t, 0, 0) == HexRun(t, |Hex(n)|, n)
  {
    var last, c := HexChar(n % 16), [HexChar(n % 16)] + t;
    assert c[0] == last && c[1..] == t && last != '}';
    if n < 16 {
      assert Hex(n) + t == c;
    } else {
      HexReads(n / 16, c);
      assert Hex(n) + t == Hex(n / 16) + c;
    }
  }

  /** `\u{...}` can denote every character, and `\x..` every one of ASCII. */
  lemma {:induction false} NumericEscapes(c: char, rest: string)
    ensures EscapeSequence("\\u{" + Hex(c as nat) + "}" + rest) == Some((c, rest))
    ensures c as nat < 0x80 ==>
              EscapeSequence("\\x" + [HexChar(c as nat / 16), HexChar(c as nat % 16)] + rest) == Some((c, rest))
  {
    var n, tail := c as nat, "}" + rest;
    var s := "\\u{" + Hex(n) + "}" + rest;
    assert s[3..] == Hex(n) + tail;
    HexReads(n, tail);
    assert tail[0] == '}' && tail[1..] == rest;
    if n < 0x80 {
      var x := "\\x" + [HexChar(n / 16), HexChar(n % 16)] + rest;
      assert x[2] == HexChar(n / 16) && x[3] == HexChar(n % 16) && x[4..] == rest;
    }
  }

  /** The escapes of a single letter. */
  lemma {:induction false} LetterEscapes(rest: string)
    ensures EscapeSequence("\\n" + rest) == Some(('\n', rest)) && EscapeSequence("\\t" + rest) == Some(('\t', rest))
    ensures EscapeSequence("\\r" + rest) == Some(('\r', rest)) && EscapeSequence("\\\"" + rest) == Some(('"', rest))
    ensures EscapeSequence("\\\\" + rest) == Some(('\\', rest)) && EscapeSequence("\\$" + rest) == Some(('$', rest))
    ensures EscapeSequence("\\e" + rest) == Some((0x1b as char, rest))
  {
    assert ("\\n" + rest)[2..] == rest && ("\\t" + rest)[2..] == rest && ("\\r" + rest)[2..] == rest;
    assert ("\\\"" + rest)[2..] == rest && ("\\\\" + rest)[2..] == rest && ("\\$" + rest)[2..] == rest;
    assert ("\\e" + rest)[2..] == rest;
  }

  function Prepend(text: string, r: Option<(string, string)>): (p: Option<(string, string)>) {
    if r.None? then None else Some((text + r.value.0, r.value.1))
  }

  /**
    The lexer behind an opening quote: the value of the literal and what follows its closing quote. `None` covers
    errors, an unterminated string, and a string with an interpolation.
  */
  function LexString(s: string): (r: Option<(string, string)>)
    ensures r.Some? ==> |r.value.1| < |s|
    decreases |s|
  {
    if s == "" then None
    else if s[0] == '"' then Some(("", s[1..]))
    else if s[0] == '\\' then
      var sequence := EscapeSequence(s);
      if sequence.None? then None else Prepend([sequence.value.0], LexString(sequence.value.1))
    else if s[0] == '$' && |s| > 1 && s[1] == '{' then None
    else Prepend([s[0]], LexString(s[1..]))
  }

  /** Between quotes, `body` is one whole literal of value `value`, whatever the file goes on with. */
  ghost predicate IsLiteral(body: string, value: string) {
    forall rest: string :: LexString(body + "\"" + rest) == Some((value, rest))
  }

  // ----- Escaping -----

  function EscapeChar(c: char): (e: string) {
    if c == '\\' then "\\\\"
    else if c == '"' then "\\\""
    else if c == '$' then "\\$"
    else if c == '\n' then "\\n"
    else [c]
  }

  function Escaped(s: string): (e: string) {
    if s == "" then "" else EscapeChar(s[0]) + Escaped(s[1..])
  }

  lemma Assoc(a: string, b: string, c: string)
    ensures a + (b + c) == a + b + c
  {
  }

  lemma {:induction false} EscapedAppend(s: string, t: string)
    ensures Escaped(s + t) == Escaped(s) + Escaped(t)
  {
    if s == "" {
      assert s + t == t;
    } else {
      EscapedAppend(s[1..], t);
      assert (s + t)[1..] == s[1..] + t;
      Assoc(EscapeChar(s[0]), Escaped(s[1..]), Escaped(t));
    }
  }

  /** `escape`: one piece of output for every character. */
  method Escape(s: string) returns (out: string)
    ensures out == Escaped(s)
  {
    out := "";
    for i := 0 to |s|
      invariant out == Escaped(s[..i])
    {
      var c := s[i];
      EscapedAppend(s[..i], [c]);
      assert s[..i + 1] == s[..i] + [c];
      assert [c][1..] == "";
      if c == '\\' {
        out := out + "\\\\";
      } else if c == '"' {
        out := out + "\\\"";
      } else if c == '$' {
        out := out + "\\$";
      } else if c == '\n' {
        out := out + "\\n";
      } else {
        out := out + [c];
      }
    }
    assert s[..|s|] == s;
  }

  lemma LexEscapedChar(c: char, s: string)
    ensures LexString(EscapeChar(c) + s) == Prepend([c], LexString(s))
  {
    var t := EscapeChar(c) + s;
    if |EscapeChar(c)| == 2 {
      assert t[2..] == s;
    } else {
      assert t[1..] == s;
    }
  }

  lemma {:induction false} LexEscapedText(text: string, s: string)
    ensures LexString(Escaped(text) + s) == Prepend(text, LexString(s))
  {
    if text == "" {
      assert Escaped(text) + s == s;
      PrependNothing(LexString(s));
    } else {
      LexEscapedText(text[1..], s);
      LexEscapedChar(text[0], Escaped(text[1..]) + s);
      Assoc(EscapeChar(text[0]), Escaped(text[1..]), s);
      PrependTwice(text, LexString(s));
    }
  }

  lemma PrependNothing(r: Option<(string, string)>)
    ensures Prepend("", r) == r
  {
    if r.Some? {
      assert "" + r.value.0 == r.value.0;
    }
  }

  lemma PrependTwice(text: string, r: Option<(string, string)>)
    requires text != ""
    ensures Prepend([text[0]], Prepend(text[1..], r)) == Prepend(text, r)
  {
    if r.Some? {
      assert [text[0]] + (text[1..] + r.value.0) == text + r.value.0;
    }
  }

  /** The lexer undoes `escape`, for every text. */
  lemma EscapedIsLiteral(text: string)
    ensures IsLiteral(Escaped(text), text)
  {
    forall rest: string
      ensures LexString(Escaped(text) + "\"" + rest) == Some((text, rest))
    {
      var tail := "\"" + rest;
      assert tail[1..] == rest;
      assert LexString(tail) == Some(("", rest));
      LexEscapedText(text, tail);
      Assoc(Escaped(text), "\"", rest);
      assert text + "" == text;
    }
  }

  /** A body that ends in an open escape swallows its closing quote. */
  lemma OpenEscapeIsNoLiteral(text: string, value: string)
    ensures !IsLiteral(Escaped(text) + "\\", value)
  {
    var tail := "\\\"";
    LexEscapedText(text, tail);
    assert tail[2..] == "";
    assert LexString(tail) == None;
    assert (Escaped(text) + "\\") + "\"" + "" == Escaped(text) + tail;
  }

  // ----- Chunks -----

  const CHUNK_LIMIT := 4000

  /** Where the generator ends the first chunk of `r`. */
  function ChunkEnd(r: string): (end: nat)
    requires r != ""
    ensures 0 < end <= |r| && end <= CHUNK_LIMIT
  {
    var end := if CHUNK_LIMIT < |r| then CHUNK_LIMIT else |r|;
    if end < |r| && r[end - 1] == '\\' then end - 1 else end
  }

  function Chunks(r: string): (chunks: seq<string>)
    decreases |r|
  {
    if r == "" then [] else [r[..ChunkEnd(r)]] + Chunks(r[ChunkEnd(r)..])
  }

  function Join(parts: seq<string>): (s: string) { if parts == [] then "" else parts[0] + Join(parts[1..]) }

  lemma {:induction false} ChunksJoin(r: string)
    ensures Join(Chunks(r)) == r
    ensures forall i | 0 <= i < |Chunks(r)| :: 0 < |Chunks(r)[i]| <= CHUNK_LIMIT
    decreases |r|
  {
    if r != "" {
      ChunksJoin(r[ChunkEnd(r)..]);
      assert r == r[..ChunkEnd(r)] + r[ChunkEnd(r)..];
    }
  }

  /** The literals that stand for one source file: the `if` and the chunk loop in `main`. */
  method Literals(source: string) returns (literals: seq<string>)
    ensures literals == LiteralsOf(source)
    ensures Join(literals) == Escaped(source)
  {
    var escaped := Escape(source);
    var charLen := |escaped|;
    ChunksJoin(escaped);
    if charLen <= CHUNK_LIMIT {
      literals := [escaped];
      assert Join(literals) == escaped + Join([]);
    } else {
      literals := ChunkLoop(escaped);
    }
  }

  /** The chunk loop. */
  method ChunkLoop(escaped: string) returns (chunks: seq<string>)
    ensures chunks == Chunks(escaped)
  {
    var charLen := |escaped|;
    chunks := [];
    var j := 0;
    assert escaped[0..] == escaped;
    while j < charLen
      invariant 0 <= j <= charLen
      invariant chunks + Chunks(escaped[j..]) == Chunks(escaped)
      decreases charLen - j
    {
      var end := if j + CHUNK_LIMIT < charLen then j + CHUNK_LIMIT else charLen;
      if end < charLen && escaped[end - 1] == '\\' {
        end := end - 1;
      }
      NextChunk(escaped, j, end, chunks);
      chunks := chunks + [escaped[j..end]];
      j := end;
    }
    assert chunks + [] == chunks;
  }

  lemma NextChunk(escaped: string, j: nat, end: nat, before: seq<string>)
    requires j < end <= |escaped| && end == j + ChunkEnd(escaped[j..])
    ensures before + Chunks(escaped[j..]) == before + [escaped[j..end]] + Chunks(escaped[end..])
  {
    SliceOfSuffix(escaped, j, end);
    assert Chunks(escaped[j..]) == [escaped[j..end]] + Chunks(escaped[end..]);
    assert before + ([escaped[j..end]] + Chunks(escaped[end..])) == before + [escaped[j..end]] + Chunks(escaped[end..]);
  }

  lemma SliceOfSuffix(s: string, j: nat, end: nat)
    requires j <= end <= |s|
    ensures s[j..][..end - j] == s[j..end] && s[j..][end - j..] == s[end..]
  {
  }

  function LiteralsOf(source: string): (literals: seq<string>) {
    if |Escaped(source)| <= CHUNK_LIMIT then [Escaped(source)] else Chunks(Escaped(source))
  }

  // ----- When the chunks are literals -----

  /** Backslashes in a row just before position `p`. */
  function Run(r: string, p: nat): (n: nat)
    requires p <= |r|
    ensures n <= p
  {
    if p == 0 || r[p - 1] != '\\' then 0 else 1 + Run(r, p - 1)
  }

  /**
    No cut falls behind a finished pair of backslashes, that is, behind an even and positive number of them: the
    one-character lookback takes the second backslash of the pair for the start of an escape and moves the cut into the
    pair.
  */
  predicate NoCutBehindPair(r: string)
    decreases |r|
  {
    r == ""
    || ((|r| > CHUNK_LIMIT ==> Run(r, CHUNK_LIMIT) == 0 || Run(r, CHUNK_LIMIT) % 2 == 1)
        && NoCutBehindPair(r[ChunkEnd(r)..]))
  }

  lemma {:induction false} RunAppend(e: string, r: string, q: nat)
    requires q <= |r|
    ensures Run(e + r, |e| + q) == Run(r, q) + if Run(r, q) == q then Run(e, |e|) else 0
  {
    var t := e + r;
    if q > 0 {
      assert t[|e| + q - 1] == r[q - 1];
      RunAppend(e, r, q - 1);
    } else {
      RunPrefix(e, r, |e|);
    }
  }

  lemma {:induction false} RunPrefix(e: string, r: string, p: nat)
    requires p <= |e|
    ensures Run(e + r, p) == Run(e, p)
  {
    if p > 0 {
      assert (e + r)[p - 1] == e[p - 1];
      RunPrefix(e, r, p - 1);
    }
  }

  /** Position `p` of the escaped text lies between the pieces of two characters, `k` of them on its left. */
  predicate Between(text: string, p: nat, k: nat) {
    k <= |text| && p <= |Escaped(text)| && Escaped(text)[..p] == Escaped(text[..k])
        && Escaped(text)[p..] == Escaped(text[k..])
  }

  lemma PieceRun(c: char)
    ensures Run(EscapeChar(c), |EscapeChar(c)|) % 2 == 0
    ensures c != '\\' ==> Run(EscapeChar(c), |EscapeChar(c)|) == 0
  {
    var e := EscapeChar(c);
    assert |e| == 2 ==> Run(e, 1) == 1;
  }

  /** The piece of one more character on the left does not change the parity. */
  lemma SameParity(c: char, rest: string, q: nat)
    requires q <= |rest|
    ensures Run(EscapeChar(c) + rest, |EscapeChar(c)| + q) % 2 == Run(rest, q) % 2
  {
    PieceRun(c);
    RunAppend(EscapeChar(c), rest, q);
  }

  /** The number of backslashes on the left tells whether a position cuts an escape. */
  lemma {:induction false} EvenRunIsBetween(text: string, p: nat) returns (k: nat)
    requires p <= |Escaped(text)| && Run(Escaped(text), p) % 2 == 0
    ensures Between(text, p, k)
    ensures p > 0 ==> k > 0
  {
    var r := Escaped(text);
    if p == 0 {
      k := 0;
      assert text[..0] == "" && text[0..] == text;
    } else {
      var e, rest := EscapeChar(text[0]), Escaped(text[1..]);
      InsidePiece(text[0], rest, p);
      SameParity(text[0], rest, p - |e|);
      var k' := EvenRunIsBetween(text[1..], p - |e|);
      k := k' + 1;
      BetweenCons(text, p - |e|, k');
    }
  }

  lemma InsidePiece(c: char, rest: string, p: nat)
    requires 0 < p <= |EscapeChar(c) + rest| && Run(EscapeChar(c) + rest, p) % 2 == 0
    ensures |EscapeChar(c)| <= p
  {
    assert |EscapeChar(c)| == 2 ==> Run(EscapeChar(c) + rest, 1) == 1;
  }

  lemma BetweenCons(text: string, q: nat, k: nat)
    requires text != "" && Between(text[1..], q, k)
    ensures Between(text, |EscapeChar(text[0])| + q, k + 1)
  {
    var e, rest, p := EscapeChar(text[0]), Escaped(text[1..]), |EscapeChar(text[0])| + q;
    assert Escaped(text) == e + rest;
    assert (e + rest)[..p] == e + rest[..q];
    assert (e + rest)[p..] == rest[q..];
    assert text[..k + 1][0] == text[0] && text[..k + 1][1..] == text[1..][..k];
    assert text[k + 1..] == text[1..][k..];
  }

  ghost predicate ReadAs(literals: seq<string>, values: seq<string>) {
    |literals| == |values| && forall i | 0 <= i < |literals| :: IsLiteral(literals[i], values[i])
  }

  /** A good first cut comes after the piece of some character. */
  lemma {:induction false} GoodFirstChunk(text: string) returns (k: nat)
    requires text != "" && NoCutBehindPair(Escaped(text))
    ensures 0 < k <= |text| && NoCutBehindPair(Escaped(text[k..]))
    ensures Chunks(Escaped(text)) == [Escaped(text[..k])] + Chunks(Escaped(text[k..]))
  {
    GoodEnd(text);
    k := EvenRunIsBetween(text, ChunkEnd(Escaped(text)));
  }

  lemma ReadAsCons(literal: string, value: string, literals: seq<string>, values: seq<string>)
    requires IsLiteral(literal, value) && ReadAs(literals, values)
    ensures ReadAs([literal] + literals, [value] + values)
  {
  }

  /** If the cuts are good, the chunks are literals for consecutive parts of the source. */
  lemma {:induction false} GoodCutsRead(text: string) returns (values: seq<string>)
    requires NoCutBehindPair(Escaped(text))
    ensures ReadAs(Chunks(Escaped(text)), values) && Join(values) == text
    decreases |text|
  {
    if text == "" {
      values := [];
    } else {
      var k := GoodFirstChunk(text);
      EscapedIsLiteral(text[..k]);
      var rest := GoodCutsRead(text[k..]);
      ReadAsCons(Escaped(text[..k]), text[..k], Chunks(Escaped(text[k..])), rest);
      values := [text[..k]] + rest;
      assert values[1..] == rest && text == text[..k] + text[k..];
    }
  }

  lemma GoodEnd(text: string)
    requires text != "" && NoCutBehindPair(Escaped(text))
    ensures Run(Escaped(text), ChunkEnd(Escaped(text))) % 2 == 0
  {
    var r := Escaped(text);
    if |r| <= CHUNK_LIMIT {
      WholeRun(text);
    }
  }

  lemma {:induction false} WholeRun(text: string)
    ensures Run(Escaped(text), |Escaped(text)|) % 2 == 0
  {
    if text != "" {
      WholeRun(text[1..]);
      SameParity(text[0], Escaped(text[1..]), |Escaped(text[1..])|);
    }
  }

  lemma ReadAsTail(literals: seq<string>, values: seq<string>)
    requires literals != [] && ReadAs(literals, values)
    ensures ReadAs(literals[1..], values[1..])
  {
  }

  /** After a bad cut there is a chunk that is no literal. */
  lemma {:induction false} BadCutBreaks(text: string, values: seq<string>)
    requires !NoCutBehindPair(Escaped(text))
    ensures !ReadAs(Chunks(Escaped(text)), values)
    decreases |text|
  {
    var r := Escaped(text);
    var end := ChunkEnd(r);
    var chunks := Chunks(r);
    if |r| > CHUNK_LIMIT && Run(r, CHUNK_LIMIT) > 0 && Run(r, CHUNK_LIMIT) % 2 == 0 {
      assert Run(r, CHUNK_LIMIT) == 1 + Run(r, end) && Run(r, end) == 1 + Run(r, end - 1);
      var k := EvenRunIsBetween(text, end - 1);
      assert chunks[0] == r[..end - 1] + "\\";
      if values != [] {
        OpenEscapeIsNoLiteral(text[..k], values[0]);
      }
    } else {
      if |r| <= CHUNK_LIMIT {
        WholeRun(text);
      }
      var k := EvenRunIsBetween(text, end);
      if values != [] {
        BadCutBreaks(text[k..], values[1..]);
        if ReadAs(chunks, values) {
          ReadAsTail(chunks, values);
        }
      }
    }
  }

  /** The literals of a file read back as the file if and only if no cut falls behind a finished pair of backslashes. */
  lemma LiteralsRoundTripIff(source: string)
    ensures (exists values: seq<string> :: ReadAs(LiteralsOf(source), values) && Join(values) == source)
            <==> NoCutBehindPair(Escaped(source))
  {
    var r := Escaped(source);
    if |r| <= CHUNK_LIMIT {
      EscapedIsLiteral(source);
      assert ReadAs([r], [source]) && Join([source]) == source + Join([]);
      assert r != "" ==> r[ChunkEnd(r)..] == "";
    } else if NoCutBehindPair(r) {
      var values := GoodCutsRead(source);
    } else {
      forall values: seq<string>
        ensures !ReadAs(LiteralsOf(source), values)
      {
        BadCutBreaks(source, values);
      }
    }
  }

  /** Without a backslash in the source no two backslashes ever meet, and every cut is good. */
  lemma {:induction false} ShortRuns(text: string, p: nat)
    requires '\\' !in text && p <= |Escaped(text)|
    ensures Run(Escaped(text), p) <= 1
  {
    if text != "" {
      var e, rest := EscapeChar(text[0]), Escaped(text[1..]);
      assert '\\' !in text[1..];
      PieceRun(text[0]);
      if p >= |e| {
        ShortRuns(text[1..], p - |e|);
        RunAppend(e, rest, p - |e|);
      }
    }
  }

  lemma {:induction false} NoBackslashNoBadCut(text: string)
    requires '\\' !in text
    ensures NoCutBehindPair(Escaped(text))
    decreases |text|
  {
    var r := Escaped(text);
    if text != "" {
      if |r| > CHUNK_LIMIT {
        ShortRuns(text, CHUNK_LIMIT);
      } else {
        WholeRun(text);
      }
      var k := EvenRunIsBetween(text, ChunkEnd(r));
      NoBackslashNoBadCut(text[k..]);
    }
  }

  /** More than 2000 backslashes in a row at the start of a file: the first cut goes through a pair. */
  lemma BackslashesBreak(source: string)
    requires |source| > 2000 && forall i | 0 <= i <= 2000 :: source[i] == '\\'
    ensures !NoCutBehindPair(Escaped(source))
  {
    var head, tail := source[..2000], source[2000..];
    BackslashRun(head);
    EscapedAppend(head, tail);
    assert source == head + tail;
    RunPrefix(Escaped(head), Escaped(tail), 4000);
  }

  lemma {:induction false} BackslashRun(text: string)
    requires forall i | 0 <= i < |text| :: text[i] == '\\'
    ensures |Escaped(text)| == 2 * |text| && Run(Escaped(text), |Escaped(text)|) == 2 * |text|
  {
    if text != "" {
      BackslashRun(text[1..]);
      var e := EscapeChar(text[0]);
      assert Run(e, 1) == 1 && Run(e, 2) == 2;
      RunAppend(e, Escaped(text[1..]), |Escaped(text[1..])|);
    }
  }
}
