// Titles: from the bytes of a song title to the long file name and its 8.3 aliases.
module VfatTitle {
  import opened Bytes

  type Unit = x: int | 0 <= x < 0x10000

  const MAX_CHARS: nat := 255
  const MAX_BASE: nat := 251
  const UNDERSCORE: Unit := 95
  const SPACE: Unit := 32
  const DOT: Unit := 46

  // ---- Decoding

  // How many bytes the character at i takes.
  function Advance(title: seq<Byte>, i: nat): (n: nat)
    requires i < |title|
    ensures n > 0
  {
    var b := title[i];
    if b < 0x80 then 1
    else if 0xC0 <= b < 0xE0 && i + 1 < |title| then 2
    else if 0xE0 <= b < 0xF0 && i + 2 < |title| then 3
    else if 0xF0 <= b < 0xF8 then 4
    else 1
  }

  function CodeAt(title: seq<Byte>, i: nat): Unit
    requires i < |title|
  {
    var b := title[i];
    if b < 0x80 then b
    else if 0xC0 <= b < 0xE0 && i + 1 < |title| then b % 32 * 64 + title[i + 1] % 64
    else if 0xE0 <= b < 0xF0 && i + 2 < |title| then b % 16 * 4096 + title[i + 1] % 64 * 64 + title[i + 2] % 64
    else UNDERSCORE
  }

  // Characters a long name may not have: control characters and "*/:<>?\| and DEL.
  predicate Forbidden(u: Unit)
  {
    u < 0x20 || u in {34, 42, 47, 58, 60, 62, 63, 92, 124, 127}
  }

  function Clean(u: Unit): Unit { if Forbidden(u) then UNDERSCORE else u }

  // The characters from byte i on, at most `room` of them.
  function Chars(title: seq<Byte>, i: nat, room: nat): (us: seq<Unit>)
    ensures |us| <= room && forall k :: 0 <= k < |us| ==> !Forbidden(us[k])
    decreases room
  {
    if i >= |title| || room == 0 then []
    else [Clean(CodeAt(title, i))] + Chars(title, i + Advance(title, i), room - 1)
  }

  // ---- Trimming

  function LeadingSpaces(us: seq<Unit>): (n: nat)
    ensures n <= |us| && (n < |us| ==> us[n] != SPACE)
    ensures forall k :: 0 <= k < n ==> us[k] == SPACE
  {
    if |us| == 0 || us[0] != SPACE then 0 else 1 + LeadingSpaces(us[1..])
  }

  predicate Droppable(u: Unit) { u == SPACE || u == DOT }

  // The length without the spaces and dots at the end, never below `least`.
  function TrimmedLength(us: seq<Unit>, least: nat): (n: nat)
    requires least <= |us|
    ensures least <= n <= |us| && (n > least ==> !Droppable(us[n - 1]))
    ensures forall k :: n <= k < |us| ==> Droppable(us[k])
    decreases |us|
  {
    if |us| > least && Droppable(us[|us| - 1]) then TrimmedLength(us[..|us| - 1], least) else |us|
  }

  const STREAM: seq<Unit> := [83, 116, 114, 101, 97, 109]
  const EXTENSION: seq<Unit> := [46, 109, 112, 51]

  function Trimmed(us: seq<Unit>): (t: seq<Unit>)
    ensures 0 < |t| && (|us| <= MAX_BASE ==> |t| <= MAX_BASE)
  {
    var start := LeadingSpaces(us);
    var n := TrimmedLength(us, start);
    if n <= start then STREAM else us[start..n]
  }

  // The title without its extension, and the whole long name.
  function Stem(title: seq<Byte>): seq<Unit> { Trimmed(Chars(title, 0, MAX_BASE)) }

  function LongName(title: seq<Byte>): seq<Unit> { Stem(title) + EXTENSION }

  // What a host can rely on: a name of legal characters, not too long, without spaces at the
  // start or spaces and dots before the extension.
  lemma LongNameLegal(title: seq<Byte>)
    ensures var name := LongName(title);
            && 5 <= |name| <= MAX_CHARS
            && (forall k :: 0 <= k < |name| ==> !Forbidden(name[k]))
            && name[0] != SPACE && !Droppable(name[|name| - 5]) && name[|name| - 4..] == EXTENSION
  {
    hide Forbidden, Chars;
    var us := Chars(title, 0, MAX_BASE);
    var start := LeadingSpaces(us);
    var n := TrimmedLength(us, start);
    var stem, name := Stem(title), LongName(title);
    LegalWords();
    assert forall k :: 0 <= k < |stem| ==> !Forbidden(stem[k]);
    assert forall k :: |stem| <= k < |name| ==> name[k] == EXTENSION[k - |stem|];
  }

  lemma LegalWords()
    ensures forall k :: 0 <= k < 6 ==> !Forbidden(STREAM[k])
    ensures forall k :: 0 <= k < 4 ==> !Forbidden(EXTENSION[k])
  {}

  // ---- Surrogates

  predicate High(u: int) { 0xD800 <= u < 0xDC00 }
  predicate Low(u: int) { 0xDC00 <= u < 0xE000 }

  predicate Surrogate(u: int) { High(u) || Low(u) }

  // A title in well-formed UTF-8 has no encoded surrogates.
  predicate EncodesSurrogate(title: seq<Byte>, i: nat)
    requires i < |title|
  {
    title[i] == 0xED && i + 1 < |title| && title[i + 1] % 64 >= 32
  }

  lemma {:induction false} NoSurrogates(title: seq<Byte>, i: nat, room: nat)
    requires forall k :: 0 <= k < |title| ==> !EncodesSurrogate(title, k)
    ensures forall k :: 0 <= k < |Chars(title, i, room)| ==> !Surrogate(Chars(title, i, room)[k])
    decreases room
  {
    if i < |title| && room > 0 {
      CodeIsNoSurrogate(title, i);
      NoSurrogates(title, i + Advance(title, i), room - 1);
    }
  }

  lemma CodeIsNoSurrogate(title: seq<Byte>, i: nat)
    requires i < |title| && !EncodesSurrogate(title, i)
    ensures !Surrogate(CodeAt(title, i))
  {}

  lemma TitleWithoutSurrogates(title: seq<Byte>)
    requires forall k :: 0 <= k < |title| ==> !EncodesSurrogate(title, k)
    ensures forall k :: 0 <= k < |LongName(title)| ==> !Surrogate(LongName(title)[k])
  {
    hide Chars, Surrogate, EncodesSurrogate, Trimmed;
    var us := Chars(title, 0, MAX_BASE);
    NoSurrogates(title, 0, MAX_BASE);
    TrimmedWithout(us);
    assert forall k :: 0 <= k < 4 ==> !Surrogate(EXTENSION[k]) by { PlainWords(); }
  }

  lemma PlainWords()
    ensures forall k :: 0 <= k < 4 ==> !Surrogate(EXTENSION[k])
    ensures forall k :: 0 <= k < 6 ==> !Surrogate(STREAM[k])
  {}

  lemma TrimmedWithout(us: seq<Unit>)
    requires forall k :: 0 <= k < |us| ==> !Surrogate(us[k])
    ensures forall k :: 0 <= k < |Trimmed(us)| ==> !Surrogate(Trimmed(us)[k])
  {
    PlainWords();
    hide Surrogate;
  }

  // ---- Well-formed titles

  type CodePoint = x: int | 0 <= x < 0x110000

  // A character in UTF-8 (section 3 of RFC 3629).
  function Utf8(u: CodePoint): (bs: seq<Byte>)
    ensures 0 < |bs|
  {
    if u < 0x80 then [u]
    else if u < 0x800 then [0xC0 + u / 64, 0x80 + u % 64]
    else if u < 0x10000 then [0xE0 + u / 4096, 0x80 + u / 64 % 64, 0x80 + u % 64]
    else [0xF0 + u / 262144, 0x80 + u / 4096 % 64, 0x80 + u / 64 % 64, 0x80 + u % 64]
  }

  function Encoded(us: seq<CodePoint>): seq<Byte>
  {
    if |us| == 0 then [] else Utf8(us[0]) + Encoded(us[1..])
  }

  // Characters beyond the basic plane have no place in a name.
  function CleanPoint(u: CodePoint): Unit { if u < 0x10000 then Clean(u) else UNDERSCORE }

  function Cleaned(us: seq<CodePoint>): (r: seq<Unit>)
    ensures |r| == |us|
  {
    if |us| == 0 then [] else [CleanPoint(us[0])] + Cleaned(us[1..])
  }

  function First(us: seq<CodePoint>, n: nat): seq<CodePoint> { if |us| <= n then us else us[..n] }

  lemma DecodesOne(title: seq<Byte>, i: nat, u: CodePoint)
    requires i + |Utf8(u)| <= |title| && title[i..i + |Utf8(u)|] == Utf8(u)
    ensures Advance(title, i) == |Utf8(u)| && CodeAt(title, i) == if u < 0x10000 then u else UNDERSCORE
  {
    var bs := title[i..i + |Utf8(u)|];
    assert forall k :: 0 <= k < |bs| ==> title[i + k] == bs[k];
    if u < 0x10000 { OctetsBack(u); }
  }

  lemma OctetsBack(u: CodePoint)
    requires u < 0x10000
    ensures u < 0x800 ==> (0xC0 + u / 64) % 32 * 64 + (0x80 + u % 64) % 64 == u
    ensures (0xE0 + u / 4096) % 16 * 4096 + (0x80 + u / 64 % 64) % 64 * 64 + (0x80 + u % 64) % 64 == u
  {
    var a := u / 64;
    assert u == a * 64 + u % 64 && a == a / 64 * 64 + a % 64 && u / 4096 == a / 64;
  }

  // The decoder reads every encoded text back, character for character, as far as there is room.
  lemma {:induction false} DecodesText(title: seq<Byte>, i: nat, us: seq<CodePoint>, room: nat)
    requires i <= |title| && title[i..] == Encoded(us)
    ensures Chars(title, i, room) == Cleaned(First(us, room))
    decreases room
  {
    hide CodeAt, Advance, Clean, Utf8;
    if |us| > 0 && room > 0 {
      var n := |Utf8(us[0])|;
      assert title[i..][..n] == title[i..i + n] && title[i..][n..] == title[i + n..];
      DecodesOne(title, i, us[0]);
      CleanUnderscore();
      DecodesText(title, i + n, us[1..], room - 1);
      assert First(us, room)[1..] == First(us[1..], room - 1);
    }
  }

  lemma CleanUnderscore()
    ensures Clean(UNDERSCORE) == UNDERSCORE
  {}

  // The name made of an encoded text: its first 251 characters, cleaned and trimmed.
  lemma NameOfText(us: seq<CodePoint>)
    ensures LongName(Encoded(us)) == Trimmed(Cleaned(First(us, MAX_BASE))) + EXTENSION
  {
    hide Trimmed, Chars, Encoded, Cleaned;
    assert Encoded(us)[0..] == Encoded(us);
    DecodesText(Encoded(us), 0, us, MAX_BASE);
  }

  lemma {:induction false} CleanedWithout(us: seq<CodePoint>, n: nat)
    requires forall k :: 0 <= k < |us| ==> !Surrogate(us[k])
    ensures forall k :: 0 <= k < |Cleaned(First(us, n))| ==> !Surrogate(Cleaned(First(us, n))[k])
  {
    if |us| > 0 && n > 0 {
      CleanedWithout(us[1..], n - 1);
      assert First(us, n)[1..] == First(us[1..], n - 1);
    }
  }

  lemma TextWithoutSurrogates(us: seq<CodePoint>)
    requires forall k :: 0 <= k < |us| ==> !Surrogate(us[k])
    ensures forall k :: 0 <= k < |LongName(Encoded(us))| ==> !Surrogate(LongName(Encoded(us))[k])
  {
    hide Surrogate, Trimmed, Encoded, Cleaned, First, LongName;
    NameOfText(us);
    CleanedWithout(us, MAX_BASE);
    TrimmedWithout(Cleaned(First(us, MAX_BASE)));
    PlainWords();
  }

  // ---- Aliases

  function Upper(u: Unit): Unit { if 97 <= u <= 122 then u - 32 else u }

  predicate Alphanumeric(u: Unit) { 65 <= u <= 90 || 48 <= u <= 57 }

  // The first letters and digits, in capitals, at most `room` of them.
  function Letters(us: seq<Unit>, room: nat): (bs: seq<Byte>)
    ensures |bs| <= room && forall k :: 0 <= k < |bs| ==> Alphanumeric(bs[k])
    decreases |us|
  {
    if |us| == 0 || room == 0 then []
    else if Alphanumeric(Upper(us[0])) then [Upper(us[0])] + Letters(us[1..], room - 1)
    else Letters(us[1..], room)
  }

  const STREAM_BASIS: seq<Byte> := [83, 84, 82, 69, 65, 77]
  const TILDE: Byte := 126
  const MP3: seq<Byte> := [77, 80, 51]

  function Basis(stem: seq<Unit>): (bs: seq<Byte>)
    ensures 0 < |bs| <= 6 && forall k :: 0 <= k < |bs| ==> Alphanumeric(bs[k])
  {
    if Letters(stem, 6) == [] then STREAM_BASIS else Letters(stem, 6)
  }

  function Spaces(n: nat): (s: seq<Byte>)
    ensures |s| == n && forall k :: 0 <= k < n ==> s[k] == 32
  {
    if n == 0 then [] else [32] + Spaces(n - 1)
  }

  function Alias(basis: seq<Byte>, f: nat): (a: seq<Byte>)
    requires |basis| <= 6 && f < 9
    ensures |a| == 11
  {
    basis + [TILDE, 49 + f] + Spaces(6 - |basis|) + MP3
  }

  // The aliases of different files differ, and none starts like a free or deleted slot.
  lemma AliasesDistinct(stem: seq<Unit>, f: nat, f': nat)
    requires f < f' < 9
    ensures Alias(Basis(stem), f) != Alias(Basis(stem), f')
    ensures Alias(Basis(stem), f)[0] != 0 && Alias(Basis(stem), f)[0] != 0xE5
  {
    var n := |Basis(stem)|;
    assert Alias(Basis(stem), f)[n + 1] == 49 + f && Alias(Basis(stem), f')[n + 1] == 49 + f';
  }

  // ---- The steps as the firmware takes them

  method DecodeTitle(title: seq<Byte>) returns (name: seq<Unit>)
    ensures name == Chars(title, 0, MAX_BASE)
  {
    hide CodeAt, Clean, Advance, Forbidden, Chars;
    name := [];
    var i := 0;
    assert [] + Chars(title, 0, MAX_BASE) == Chars(title, 0, MAX_BASE);
    while i < |title| && |name| < MAX_BASE
      invariant 0 <= i && |name| <= MAX_BASE
      invariant name + Chars(title, i, MAX_BASE - |name|) == Chars(title, 0, MAX_BASE)
      decreases MAX_BASE - |name|
    {
      CharsStep(title, i, name);
      name := name + [Clean(CodeAt(title, i))];
      i := i + Advance(title, i);
    }
    CharsEnd(title, i, name);
  }

  lemma CharsStep(title: seq<Byte>, i: nat, name: seq<Unit>)
    requires i < |title| && |name| < MAX_BASE
    ensures name + Chars(title, i, MAX_BASE - |name|)
            == name + [Clean(CodeAt(title, i))] + Chars(title, i + Advance(title, i), MAX_BASE - |name| - 1)
  {
    CharsUnfold(title, i, MAX_BASE - |name|);
    hide CodeAt, Clean, Advance, Forbidden, Chars;
    Regroup(name, [Clean(CodeAt(title, i))], Chars(title, i + Advance(title, i), MAX_BASE - |name| - 1));
  }

  lemma Regroup(a: seq<Unit>, b: seq<Unit>, c: seq<Unit>)
    ensures a + (b + c) == a + b + c
  {}

  lemma CharsUnfold(title: seq<Byte>, i: nat, room: nat)
    requires i < |title| && room > 0
    ensures Chars(title, i, room) == [Clean(CodeAt(title, i))] + Chars(title, i + Advance(title, i), room - 1)
  {
    hide CodeAt, Clean, Advance, Forbidden;
  }

  lemma CharsEnd(title: seq<Byte>, i: nat, name: seq<Unit>)
    requires |name| <= MAX_BASE && (i >= |title| || |name| == MAX_BASE)
    ensures name + Chars(title, i, MAX_BASE - |name|) == name
  {}

  method TrimTitle(name: seq<Unit>) returns (stem: seq<Unit>)
    ensures stem == Trimmed(name)
  {
    hide Droppable;
    var start := SkipSpaces(name);
    var n := |name|;
    assert name[..n] == name;
    while n > start && (name[n - 1] == SPACE || name[n - 1] == DOT)
      invariant start <= n <= |name|
      invariant TrimmedLength(name, start) == TrimmedLength(name[..n], start)
    {
      CutLast(name[..n], start);
      assert name[..n][..n - 1] == name[..n - 1];
      n := n - 1;
    }
    KeepLast(name[..n], start);
    stem := if n <= start then STREAM else name[start..n];
  }

  lemma CutLast(us: seq<Unit>, least: nat)
    requires least < |us| && (us[|us| - 1] == SPACE || us[|us| - 1] == DOT)
    ensures TrimmedLength(us, least) == TrimmedLength(us[..|us| - 1], least)
  {}

  lemma KeepLast(us: seq<Unit>, least: nat)
    requires least <= |us| && (least < |us| ==> us[|us| - 1] != SPACE && us[|us| - 1] != DOT)
    ensures TrimmedLength(us, least) == |us|
  {}

  method SkipSpaces(name: seq<Unit>) returns (start: nat)
    ensures start == LeadingSpaces(name)
  {
    start := 0;
    assert name[0..] == name;
    while start < |name| && name[start] == SPACE
      invariant start <= |name|
      invariant LeadingSpaces(name) == start + LeadingSpaces(name[start..])
    {
      assert name[start..][1..] == name[start + 1..];
      start := start + 1;
    }
  }

  method MakeBasis(stem: seq<Unit>) returns (basis: seq<Byte>)
    ensures basis == Basis(stem)
  {
    basis := [];
    var i := 0;
    assert stem[0..] == stem;
    while i < |stem| && |basis| < 6
      invariant 0 <= i <= |stem| && |basis| <= 6
      invariant basis + Letters(stem[i..], 6 - |basis|) == Letters(stem, 6)
    {
      var c := Upper(stem[i]);
      assert stem[i..][1..] == stem[i + 1..];
      if Alphanumeric(c) {
        ghost var rest := Letters(stem[i + 1..], 6 - |basis| - 1);
        assert basis + ([c] + rest) == basis + [c] + rest;
        basis := basis + [c];
      }
      i := i + 1;
    }
    assert basis + [] == basis;
    if |basis| == 0 { basis := STREAM_BASIS; }
  }
}
