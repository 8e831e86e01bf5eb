/** The avatar of a room: a colour derived from a hash of its name, and up
    to two initials. `charCodeAt` and `substring` are modelled on characters,
    which are UTF-16 code units for names within the Basic Multilingual Plane. */
module RoomUtils {
  import opened Text
  import Config

  const TwoTo32: int := 0x1_0000_0000
  const TwoTo31: int := 0x8000_0000

  /** ECMAScript's ToInt32 on an integral number: wrap into -2^31 .. 2^31-1. */
  function ToInt32(x: int): (r: int)
    ensures -TwoTo31 <= r < TwoTo31
    ensures (r - x) % TwoTo32 == 0
  {
    var m := x % TwoTo32;
    if m >= TwoTo31 then m - TwoTo32 else m
  }

  /** ToInt32 leaves a 32-bit integer alone, so it is idempotent. */
  lemma ToInt32OnInt32(x: int)
    requires -TwoTo31 <= x < TwoTo31
    ensures ToInt32(x) == x
  {
  }

  /** `x << 5` on a number. */
  function ShiftLeft5(x: int): (r: int)
    ensures -TwoTo31 <= r < TwoTo31
  {
    ToInt32(ToInt32(x) * 32)
  }

  /** One step of the loop: `code + ((hash << 5) - hash)`; the subtraction
      and addition are on unwrapped numbers. */
  function Step(hash: int, code: char): int {
    code as int + (ShiftLeft5(hash) - hash)
  }

  /** The hash of a name, as the recurrence over its characters from 0. */
  function Hash(s: string): int {
    if |s| == 0 then 0 else Step(Hash(s[..|s| - 1]), s[|s| - 1])
  }

  /** The hashing loop of `getRoomColor`. */
  method HashLoop(name: string) returns (hash: int)
    ensures hash == Hash(name)
  {
    hash := 0;
    for i := 0 to |name|
      invariant hash == Hash(name[..i])
    {
      assert name[..i + 1][..i] == name[..i];
      hash := Step(hash, name[i]);
    }
    assert name[..|name|] == name;
  }

  /** Each step moves the hash by less than 2^32, so the hash of an n-character
      name stays below n * 2^32 in magnitude. */
  lemma {:induction false} HashBound(s: string)
    ensures -|s| * TwoTo32 <= Hash(s) <= |s| * TwoTo32
  {
    if |s| > 0 {
      HashBound(s[..|s| - 1]);
    }
  }

  function Abs(x: int): nat {
    if x < 0 then -x else x
  }

  /** JavaScript's `%`, whose result takes the dividend's sign. */
  function JsRem(a: int, b: int): (r: int)
    requires b > 0
    ensures Abs(r) == Abs(a) % b
    ensures a >= 0 ==> r == a % b
  {
    if a >= 0 then a % b else -((-a) % b)
  }

  /** `x >> 8`: an arithmetic shift of the 32-bit value. */
  function ShiftRight8(x: int): (r: int)
    ensures -0x80_0000 <= r < 0x80_0000
  {
    ToInt32(x) / 256
  }

  function Hue(h: int): nat { Abs(JsRem(h, 360)) }
  function Saturation(h: int): nat { 65 + Abs(h) % 20 }
  function Lightness(h: int): nat { 45 + Abs(ShiftRight8(h)) % 15 }

  /** `hsl(h, s%, l%)`. */
  function Hsl(h: nat, s: nat, l: nat): string {
    "hsl(" + NatToString(h) + ", " + NatToString(s) + "%, " + NatToString(l) + "%)"
  }

  /** `getRoomColor`: an HSL colour whose hue, saturation and lightness are
      drawn from the name's hash and stay within fixed bands. */
  function RoomColor(name: string): (r: string)
    ensures exists h: nat, s: nat, l: nat ::
      && h < 360 && 65 <= s < 85 && 45 <= l < 60
      && r == Hsl(h, s, l)
  {
    var hash := Hash(name);
    assert Hue(hash) < 360 && 65 <= Saturation(hash) < 85 && 45 <= Lightness(hash) < 60;
    Hsl(Hue(hash), Saturation(hash), Lightness(hash))
  }

  /** The hue is the name hash's magnitude modulo 360. */
  lemma HueOfHash(name: string)
    ensures Hue(Hash(name)) == Abs(Hash(name)) % 360
  {
  }

  /** Every word has at least one character. */
  predicate NoEmptyWord(words: seq<string>) {
    forall k | 0 <= k < |words| :: |words[k]| > 0
  }

  /** A split of text that neither starts nor ends with whitespace has no empty word. */
  lemma {:induction false} SplitWordsNonEmpty(s: string)
    requires |s| > 0 && !IsWhitespace(s[0]) && !IsWhitespace(s[|s| - 1])
    ensures NoEmptyWord(SplitOnWhitespace(s))
    decreases |s|
  {
    var i := NonSpaceRun(s);
    assert i > 0;
    if i < |s| {
      var rest := s[i..];
      var n := SpaceRun(rest);
      assert rest[|rest| - 1] == s[|s| - 1];
      assert n < |rest|;
      var tail := s[i + n..];
      assert tail[0] == rest[n];
      assert tail[|tail| - 1] == s[|s| - 1];
      SplitWordsNonEmpty(tail);
      WordThenWords(s[..i], SplitOnWhitespace(tail));
    }
  }

  lemma WordThenWords(w: string, words: seq<string>)
    requires |w| > 0 && NoEmptyWord(words)
    ensures NoEmptyWord([w] + words)
  {
    var all := [w] + words;
    forall k | 0 < k < |all| ensures |all[k]| > 0 {
      assert all[k] == words[k - 1];
    }
  }

  /** `w[0]` in a join: the first character, or nothing for an empty word. */
  function Initial(w: string): string {
    if |w| > 0 then [w[0]] else ""
  }

  /** `getRoomSymbol`: one word gives the first two characters of the untrimmed
      name, upper-cased; more words give the initials of the first two. */
  function RoomSymbol(name: string): (r: string)
    ensures var words := SplitOnWhitespace(Trim(name));
      && (|words| == 1 ==> r == ToUpper(name[..if |name| < 2 then |name| else 2]))
      && (|words| > 1 ==> |r| == 2 && r == ToUpper([words[0][0], words[1][0]]))
  {
    var words := SplitOnWhitespace(Trim(name));
    if |words| == 1 then ToUpper(name[..if |name| < 2 then |name| else 2])
    else
      var t := Trim(name);
      assert |t| > 0;
      SplitWordsNonEmpty(t);
      ToUpper(Initial(words[0]) + Initial(words[1]))
  }

  /** The empty name has no symbol. */
  lemma EmptySymbol()
    ensures RoomSymbol("") == ""
  {
  }

  /** A word: non-empty, without whitespace. */
  predicate IsWord(w: string) {
    |w| > 0 && forall i | 0 <= i < |w| :: !IsWhitespace(w[i])
  }

  /** Trimming text without whitespace at either end changes nothing. */
  lemma TrimNoEdges(s: string)
    requires |s| > 0 && !IsWhitespace(s[0]) && !IsWhitespace(s[|s| - 1])
    ensures Trim(s) == s
  {
    SpaceRunIs(s, 0);
    assert s[0..] == s;
    assert s[..|s|] == s;
  }

  /** A single word splits into itself. */
  lemma SplitWord(w: string)
    requires IsWord(w)
    ensures SplitOnWhitespace(w) == [w]
  {
    NonSpaceRunIs(w, |w|);
  }

  /** Two words joined by one blank split into the two words. */
  lemma SplitTwoWords(w1: string, w2: string)
    requires IsWord(w1) && IsWord(w2)
    ensures SplitOnWhitespace(w1 + " " + w2) == [w1, w2]
  {
    var s := w1 + " " + w2;
    assert forall i | 0 <= i < |w1| :: s[i] == w1[i];
    assert s[|w1|] == ' ';
    NonSpaceRunIs(s, |w1|);
    var rest := s[|w1|..];
    assert rest[1] == w2[0];
    SpaceRunIs(rest, 1);
    assert s[|w1| + 1..] == w2;
    assert s[..|w1|] == w1;
    SplitWord(w2);
  }

  /** A one-word name keeps a leading blank, because only the split sees
      the trimmed name: the symbol is the blank and the word's first character. */
  lemma LeadingBlankKept(w: string)
    requires IsWord(w)
    ensures RoomSymbol(" " + w) == [' ', UpperChar(w[0])]
  {
    var s := " " + w;
    SpaceRunIs(s, 1);
    assert s[1..] == w;
    TrimNoEdges(w);
    SplitWord(w);
    assert s[..2] == [' ', w[0]];
  }

  /** A name of two words gives their upper-cased initials. */
  lemma TwoWordSymbol(w1: string, w2: string)
    requires IsWord(w1) && IsWord(w2)
    ensures RoomSymbol(w1 + " " + w2) == [UpperChar(w1[0]), UpperChar(w2[0])]
  {
    var s := w1 + " " + w2;
    assert s[0] == w1[0] && s[|s| - 1] == w2[|w2| - 1];
    TrimNoEdges(s);
    SplitTwoWords(w1, w2);
    var u := ToUpper([w1[0], w2[0]]);
    assert u[0] == UpperChar(w1[0]) && u[1] == UpperChar(w2[0]);
    assert RoomSymbol(s) == u;
  }

  /** The default room is one word whose second character is a Latin-1
      letter: its symbol upper-cases both, as `toUpperCase` does. */
  lemma DefaultRoomSymbol()
    ensures RoomSymbol(Config.DefaultDeviceName) == "K\U{00DC}"
  {
    var w := Config.DefaultDeviceName;
    assert IsWord(w);
    TrimNoEdges(w);
    SplitWord(w);
    assert w[..2] == "K\U{00FC}";
  }
}
