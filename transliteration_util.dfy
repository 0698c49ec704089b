/**
 * Character-table transliteration between Latin capitals, Russian Cyrillic
 * and the Kazakh-only letters, plus the repair of Cyrillic look-alike letters
 * inside Latin text and the "has a Latin letter" test.
 */
module TransliterationUtil {
  import opened Wrappers
  import opened JavaText

  /** The entries of an insertion-ordered map (LinkedHashMap), in iteration order. */
  type Dictionary = seq<(string, string)>

  const LatinToCyrillic: Dictionary := [
    ("SCH", "Щ"), ("SH", "Ш"), ("TCH", "Ч"), ("CH", "Ч"), ("GHT", "Д"), ("TH", "Т"), ("PH", "Ф"),
    ("FF", "Ф"), ("OO", "У"), ("YOU", "Ю"), ("OU", "У"), ("EE", "И"), ("EA", "И"),
    ("A", "А"), ("B", "Б"), ("C", "К"), ("D", "Д"), ("E", "Е"), ("F", "Ф"), ("G", "Г"), ("H", "Х"),
    ("I", "И"), ("J", "Й"), ("K", "К"), ("L", "Л"), ("M", "М"), ("N", "Н"), ("O", "О"), ("P", "П"),
    ("Q", "К"), ("R", "Р"), ("S", "С"), ("T", "Т"), ("U", "У"), ("V", "В"), ("W", "В"), ("X", "КС"),
    ("Y", "Й"), ("Z", "З")]

  const KazakhToRussian: Dictionary := [
    ("Ә", "А"), ("Қ", "К"), ("Ң", "Н"), ("Ө", "О"), ("Ұ", "У"), ("Ү", "Ю"), ("Һ", "Х"), ("І", "И")]

  /** The reverse table, built by putting every (value, key) of LatinToCyrillic in order. */
  const CyrillicToLatin: Dictionary := Inverted(LatinToCyrillic)

  /** The look-alike repair table: Cyrillic capitals that share a glyph with a Latin capital. */
  const MixedCharFix: map<char, char> := map[
    'А' := 'A', 'В' := 'B', 'С' := 'C', 'Е' := 'E', 'Н' := 'H', 'К' := 'K',
    'М' := 'M', 'О' := 'O', 'Р' := 'P', 'Т' := 'T', 'Х' := 'X']

  // ---------------------------------------------------------------------------
  // LinkedHashMap behaviour

  /** The position of `key` among the entries, or -1. */
  function KeyIndex(d: Dictionary, key: string): (r: int)
    ensures -1 <= r < |d|
    ensures r == -1 <==> forall i :: 0 <= i < |d| ==> d[i].0 != key
    ensures r >= 0 ==> d[r].0 == key
  {
    if d == [] then -1
    else if d[|d| - 1].0 == key then |d| - 1
    else KeyIndex(d[..|d| - 1], key)
  }

  /** LinkedHashMap.put: a present key keeps its position and takes the new value; a new key goes last. */
  function Put(d: Dictionary, key: string, value: string): (r: Dictionary)
  {
    var i := KeyIndex(d, key);
    if i >= 0 then d[i := (key, value)] else d + [(key, value)]
  }

  predicate DistinctKeys(d: Dictionary) {
    forall i, j :: 0 <= i < j < |d| ==> d[i].0 != d[j].0
  }

  /** The map obtained by putting (value, key) for every entry of `d` in iteration order. */
  function Inverted(d: Dictionary): Dictionary {
    if d == [] then [] else Put(Inverted(d[..|d| - 1]), d[|d| - 1].1, d[|d| - 1].0)
  }

  lemma {:induction false} PutKeepsKeysDistinct(d: Dictionary, key: string, value: string)
    requires DistinctKeys(d)
    ensures DistinctKeys(Put(d, key, value))
    ensures KeyIndex(d, key) >= 0 ==> |Put(d, key, value)| == |d|
    ensures KeyIndex(d, key) < 0 ==> |Put(d, key, value)| == |d| + 1
  {
  }

  /** Whatever the table, its inversion never repeats a key and holds at most as many entries. */
  lemma {:induction false} InvertedKeysDistinct(d: Dictionary)
    ensures DistinctKeys(Inverted(d))
    ensures |Inverted(d)| <= |d|
  {
    if d != [] {
      InvertedKeysDistinct(d[..|d| - 1]);
      PutKeepsKeysDistinct(Inverted(d[..|d| - 1]), d[|d| - 1].1, d[|d| - 1].0);
    }
  }

  /** The static initializer's inversion loop. */
  method InvertTable(d: Dictionary) returns (r: Dictionary)
    ensures r == Inverted(d)
    ensures DistinctKeys(r)
  {
    r := [];
    for i := 0 to |d|
      invariant r == Inverted(d[..i])
    {
      assert d[..i + 1][..i] == d[..i];
      r := Put(r, d[i].1, d[i].0);
    }
    assert d[..|d|] == d;
    InvertedKeysDistinct(d);
  }

  // ---------------------------------------------------------------------------
  // Replacement

  /** How many characters of `s` occur in `chars`. */
  function Count(s: string, chars: string): (n: nat)
    ensures n <= |s|
  {
    if s == [] then 0 else Count(s[..|s| - 1], chars) + (if s[|s| - 1] in chars then 1 else 0)
  }

  lemma {:induction false} CountAppend(a: string, b: string, chars: string)
    ensures Count(a + b, chars) == Count(a, chars) + Count(b, chars)
  {
    if b != [] {
      assert (a + b)[..|a + b| - 1] == a + b[..|b| - 1];
      assert (a + b)[|a + b| - 1] == b[|b| - 1];
      CountAppend(a, b[..|b| - 1], chars);
    } else {
      assert a + b == a;
    }
  }

  lemma {:induction false} CountAll(s: string, chars: string)
    requires forall c :: c in s ==> c in chars
    ensures Count(s, chars) == |s|
  {
    if s != [] {
      CountAll(s[..|s| - 1], chars);
    }
  }

  lemma {:induction false} CountNone(s: string, chars: string)
    requires forall c :: c in s ==> c !in chars
    ensures Count(s, chars) == 0
  {
    if s != [] {
      CountNone(s[..|s| - 1], chars);
    }
  }

  /** No character of the replacement occurs in the key, so a replacement never recreates its key. */
  predicate Disjoint(key: string, value: string) {
    forall c :: c in value ==> c !in key
  }

  /** Every entry has a non-empty key and a value sharing no character with it. */
  predicate WellFormed(d: Dictionary) {
    forall i :: 0 <= i < |d| ==> d[i].0 != [] && Disjoint(d[i].0, d[i].1)
  }

  /** One StringBuilder.replace: the occurrence of `key` at `i` becomes `value`. */
  function ReplaceAt(s: string, i: nat, key: string, value: string): string
    requires i + |key| <= |s|
  {
    s[..i] + value + s[i + |key|..]
  }

  lemma ReplaceAtShrinksCount(s: string, i: nat, key: string, value: string)
    requires OccursAt(s, key, i) && key != [] && Disjoint(key, value)
    ensures Count(ReplaceAt(s, i, key, value), key) < Count(s, key)
  {
    assert s == s[..i] + key + s[i + |key|..];
    CountAppend(s[..i] + key, s[i + |key|..], key);
    CountAppend(s[..i], key, key);
    CountAppend(s[..i] + value, s[i + |key|..], key);
    CountAppend(s[..i], value, key);
    CountAll(key, key);
    CountNone(value, key);
  }

  /** Replacing the leftmost occurrence of `key` until none is left. */
  function ReplaceAll(s: string, key: string, value: string): (r: string)
    requires key != [] && Disjoint(key, value)
    ensures IndexOf(r, key) == -1
    decreases Count(s, key)
  {
    var i := IndexOf(s, key);
    if i == -1 then s
    else
      ReplaceAtShrinksCount(s, i, key, value);
      ReplaceAll(ReplaceAt(s, i, key, value), key, value)
  }

  /** The dictionary's entries applied one after another, each until its key is gone. */
  function Transliterated(s: string, d: Dictionary): string
    requires WellFormed(d)
    decreases |d|
  {
    if d == [] then s else Transliterated(ReplaceAll(s, d[0].0, d[0].1), d[1..])
  }

  /**
   * transliterate: a missing text stays missing; otherwise every entry, in
   * iteration order, replaces the leftmost occurrence of its key until the key
   * no longer occurs.
   */
  method Transliterate(text: Option<string>, dictionary: Dictionary) returns (r: Option<string>)
    requires WellFormed(dictionary)
    ensures text.None? ==> r.None?
    ensures text.Some? ==> r == Some(Transliterated(text.value, dictionary))
  {
    if text.None? || text.value == [] {
      if text.Some? {
        EmptyStaysEmpty(dictionary);
      }
      return text;
    }
    var result := text.value;
    for e := 0 to |dictionary|
      invariant Transliterated(result, dictionary[e..]) == Transliterated(text.value, dictionary)
    {
      var (key, value) := dictionary[e];
      assert dictionary[e..][1..] == dictionary[e + 1..];
      ghost var before := result;
      var index := IndexOf(result, key);
      while index != -1
        invariant ReplaceAll(result, key, value) == ReplaceAll(before, key, value)
        invariant index == IndexOf(result, key)
        decreases Count(result, key)
      {
        ReplaceAtShrinksCount(result, index, key, value);
        result := ReplaceAt(result, index, key, value);
        index := IndexOf(result, key);
      }
    }
    r := Some(result);
  }

  lemma {:induction false} EmptyStaysEmpty(d: Dictionary)
    requires WellFormed(d)
    ensures Transliterated([], d) == []
  {
    if d != [] {
      assert ReplaceAll([], d[0].0, d[0].1) == [];
      EmptyStaysEmpty(d[1..]);
    }
  }

  // ---------------------------------------------------------------------------
  // The reverse table

  /** LinkedHashMap.get: the value stored under `key`. */
  function Get(d: Dictionary, key: string): (r: Option<string>)
    ensures r.Some? <==> exists i :: 0 <= i < |d| && d[i].0 == key
  {
    var i := KeyIndex(d, key);
    if i >= 0 then Some(d[i].1) else None
  }

  lemma {:induction false} KeyIndexOfDistinct(d: Dictionary, i: int)
    requires DistinctKeys(d) && 0 <= i < |d|
    ensures KeyIndex(d, d[i].0) == i
  {
    if i < |d| - 1 {
      KeyIndexOfDistinct(d[..|d| - 1], i);
    }
  }

  /** Putting a key moves no key that was already there. */
  lemma PutKeepsPositions(d: Dictionary, key: string, value: string, other: string)
    requires DistinctKeys(d) && KeyIndex(d, other) >= 0
    ensures KeyIndex(Put(d, key, value), other) == KeyIndex(d, other)
  {
    var i := KeyIndex(d, other);
    PutKeepsKeysDistinct(d, key, value);
    KeyIndexOfDistinct(Put(d, key, value), i);
  }

  /** Every entry of the reverse table swaps the components of some entry of the original. */
  lemma {:induction false} InvertedEntries(d: Dictionary)
    ensures forall j :: 0 <= j < |Inverted(d)| ==> exists i :: 0 <= i < |d| && Inverted(d)[j] == (d[i].1, d[i].0)
  {
    if d != [] {
      var p := d[..|d| - 1];
      var last := d[|d| - 1];
      var t := Inverted(p);
      InvertedEntries(p);
      forall j | 0 <= j < |Inverted(d)|
        ensures exists i :: 0 <= i < |d| && Inverted(d)[j] == (d[i].1, d[i].0)
      {
        if Inverted(d)[j] == (last.1, last.0) {
          assert Inverted(d)[j] == (d[|d| - 1].1, d[|d| - 1].0);
        } else {
          assert j < |t| && Inverted(d)[j] == t[j];
          var i :| 0 <= i < |p| && t[j] == (p[i].1, p[i].0);
          assert d[i] == p[i];
        }
      }
    } else {
      assert Inverted(d) == [];
    }
  }

  lemma PutHasKey(d: Dictionary, key: string, value: string)
    ensures KeyIndex(Put(d, key, value), key) >= 0
  {
    var r := Put(d, key, value);
    if KeyIndex(d, key) < 0 {
      assert r[|r| - 1].0 == key;
    } else {
      assert r[KeyIndex(d, key)].0 == key;
    }
  }

  /** The reverse table holds a key exactly for the values of the original. */
  lemma {:induction false} InvertedKeyIndex(d: Dictionary, v: string)
    ensures KeyIndex(Inverted(d), v) >= 0 <==> exists i :: 0 <= i < |d| && d[i].1 == v
  {
    InvertedEntries(d);
    if KeyIndex(Inverted(d), v) >= 0 {
      var j := KeyIndex(Inverted(d), v);
      var i :| 0 <= i < |d| && Inverted(d)[j] == (d[i].1, d[i].0);
    }
    if i :| 0 <= i < |d| && d[i].1 == v {
      InvertedHoldsValue(d, v, i);
    }
  }

  lemma {:induction false} InvertedHoldsValue(d: Dictionary, v: string, i: int)
    requires 0 <= i < |d| && d[i].1 == v
    ensures KeyIndex(Inverted(d), v) >= 0
  {
    var p := d[..|d| - 1];
    InvertedKeysDistinct(p);
    if i == |d| - 1 {
      PutHasKey(Inverted(p), v, d[i].0);
    } else {
      assert p[i] == d[i];
      InvertedHoldsValue(p, v, i);
      PutKeepsPositions(Inverted(p), d[|d| - 1].1, d[|d| - 1].0, v);
    }
  }

  /** The reverse table reads a value back as the key of the LAST entry that produced it. */
  lemma {:induction false} GetInverted(d: Dictionary, v: string, i: int)
    requires 0 <= i < |d| && d[i].1 == v
    requires forall j :: i < j < |d| ==> d[j].1 != v
    ensures Get(Inverted(d), v) == Some(d[i].0)
  {
    var p := d[..|d| - 1];
    var t := Inverted(p);
    InvertedKeysDistinct(p);
    PutKeepsKeysDistinct(t, d[|d| - 1].1, d[|d| - 1].0);
    if i == |d| - 1 {
      var k := KeyIndex(t, v);
      if k >= 0 {
        KeyIndexOfDistinct(Inverted(d), k);
      } else {
        KeyIndexOfDistinct(Inverted(d), |t|);
      }
    } else {
      GetInverted(p, v, i);
      PutKeepsPositions(t, d[|d| - 1].1, d[|d| - 1].0, v);
    }
  }

  /** A value first produced earlier than another keeps an earlier position in the reverse table. */
  lemma {:induction false} InvertedOrder(d: Dictionary, v: string, w: string, iv: int, iw: int)
    requires 0 <= iv < iw < |d| && d[iv].1 == v && d[iw].1 == w && v != w
    requires forall j :: 0 <= j < iw ==> d[j].1 != w
    ensures 0 <= KeyIndex(Inverted(d), v) < KeyIndex(Inverted(d), w)
  {
    var p := d[..|d| - 1];
    var t := Inverted(p);
    InvertedKeysDistinct(p);
    InvertedKeyIndex(p, v);
    assert p[iv] == d[iv];
    if iw == |d| - 1 {
      InvertedKeyIndex(p, w);
      PutKeepsPositions(t, w, d[iw].0, v);
      PutKeepsKeysDistinct(t, w, d[iw].0);
      KeyIndexOfDistinct(Inverted(d), |t|);
    } else {
      InvertedOrder(p, v, w, iv, iw);
      PutKeepsPositions(t, d[|d| - 1].1, d[|d| - 1].0, v);
      PutKeepsPositions(t, d[|d| - 1].1, d[|d| - 1].0, w);
    }
  }

  // ---------------------------------------------------------------------------
  // What the replacements leave behind

  lemma {:induction false} ReplaceAllKeepsAbsent(s: string, key: string, value: string, c: char)
    requires key != [] && Disjoint(key, value) && c !in s && c !in value
    ensures c !in ReplaceAll(s, key, value)
    decreases Count(s, key)
  {
    var i := IndexOf(s, key);
    if i != -1 {
      ReplaceAtShrinksCount(s, i, key, value);
      ReplaceAllKeepsAbsent(ReplaceAt(s, i, key, value), key, value, c);
    }
  }

  /** A character that is absent and that no entry writes stays absent. */
  lemma {:induction false} TransliteratedKeepsAbsent(s: string, d: Dictionary, c: char)
    requires WellFormed(d) && c !in s
    requires forall i :: 0 <= i < |d| ==> c !in d[i].1
    ensures c !in Transliterated(s, d)
    decreases |d|
  {
    if d != [] {
      ReplaceAllKeepsAbsent(s, d[0].0, d[0].1, c);
      TransliteratedKeepsAbsent(ReplaceAll(s, d[0].0, d[0].1), d[1..], c);
    }
  }

  /** A one-character key removes its character for good when no later entry writes it back. */
  lemma {:induction false} SingleKeyRemoved(s: string, d: Dictionary, p: int, c: char)
    requires WellFormed(d) && 0 <= p < |d| && d[p].0 == [c]
    requires forall i :: p < i < |d| ==> c !in d[i].1
    ensures c !in Transliterated(s, d)
    decreases p
  {
    var r := ReplaceAll(s, d[0].0, d[0].1);
    if p == 0 {
      if c in r {
        var k :| 0 <= k < |r| && r[k] == c;
        assert OccursAt(r, [c], k);
      }
      TransliteratedKeepsAbsent(r, d[1..], c);
    } else {
      SingleKeyRemoved(r, d[1..], p - 1, c);
    }
  }

  lemma OccurrenceHoldsFirstChar(s: string, key: string, k: int)
    requires OccursAt(s, key, k) && key != []
    ensures key[0] in s
  {
    assert s[k] == s[k..k + |key|][0];
  }

  /** A text holding no character of any key passes through unchanged. */
  lemma {:induction false} UntouchedText(s: string, d: Dictionary)
    requires WellFormed(d)
    requires forall i, c :: 0 <= i < |d| && c in d[i].0 ==> c !in s
    ensures Transliterated(s, d) == s
    decreases |d|
  {
    if d != [] {
      var key := d[0].0;
      assert key[0] in key;
      if IndexOf(s, key) != -1 {
        OccurrenceHoldsFirstChar(s, key, IndexOf(s, key));
      }
      UntouchedText(s, d[1..]);
    }
  }

  /**
   * An entry whose key contains a character that an earlier one-character key
   * already removed, and that nothing since has written back, never fires:
   * dropping it changes nothing.
   */
  lemma {:induction false} ShadowedEntryIsDead(s: string, d: Dictionary, p: int, q: int, c: char)
    requires WellFormed(d) && 0 <= p < q < |d| && d[p].0 == [c] && c in d[q].0
    requires forall i :: p <= i < |d| ==> c !in d[i].1
    ensures WellFormed(d[..q] + d[q + 1..])
    ensures Transliterated(s, d) == Transliterated(s, d[..q] + d[q + 1..])
    decreases p
  {
    var rest := d[..q] + d[q + 1..];
    assert forall i :: 0 <= i < |rest| ==> rest[i] == (if i < q then d[i] else d[i + 1]);
    var r := ReplaceAll(s, d[0].0, d[0].1);
    assert rest[0] == d[0] && rest[1..] == d[1..][..q - 1] + d[1..][q..];
    if p == 0 {
      if c in r {
        var k :| 0 <= k < |r| && r[k] == c;
        assert OccursAt(r, [c], k);
      }
      DeadWhenAbsent(r, d[1..], q - 1, c);
    } else {
      ShadowedEntryIsDead(r, d[1..], p - 1, q - 1, c);
    }
  }

  lemma {:induction false} DeadWhenAbsent(s: string, d: Dictionary, q: int, c: char)
    requires WellFormed(d) && 0 <= q < |d| && c in d[q].0 && c !in s
    requires forall i :: 0 <= i < |d| ==> c !in d[i].1
    ensures WellFormed(d[..q] + d[q + 1..])
    ensures Transliterated(s, d) == Transliterated(s, d[..q] + d[q + 1..])
    decreases q
  {
    var rest := d[..q] + d[q + 1..];
    assert forall i :: 0 <= i < |rest| ==> rest[i] == (if i < q then d[i] else d[i + 1]);
    if q == 0 {
      assert rest == d[1..];
      assert IndexOf(s, d[0].0) == -1 by {
        var k :| 0 <= k < |d[0].0| && d[0].0[k] == c;
      }
    } else {
      var r := ReplaceAll(s, d[0].0, d[0].1);
      ReplaceAllKeepsAbsent(s, d[0].0, d[0].1, c);
      assert rest[0] == d[0] && rest[1..] == d[1..][..q - 1] + d[1..][q..];
      DeadWhenAbsent(r, d[1..], q - 1, c);
    }
  }

  // ---------------------------------------------------------------------------
  // The three tables

  predicate IsLatinCapital(c: char) {
    'A' <= c <= 'Z'
  }

  /** Position of the one-letter entry for a Latin capital in the Latin table. */
  function LetterEntry(c: char): int {
    (c as int) - ('A' as int) + 13
  }

  lemma LatinTableWellFormed()
    ensures WellFormed(LatinToCyrillic)
  {
  }

  lemma LatinTableValues()
    ensures forall i, c :: 0 <= i < |LatinToCyrillic| && c in LatinToCyrillic[i].1 ==> !IsLatinCapital(c)
  {
  }

  lemma LatinTableKeys()
    ensures forall i, c :: 0 <= i < |LatinToCyrillic| && c in LatinToCyrillic[i].0 ==> IsLatinCapital(c)
  {
  }

  lemma LatinTableLetters()
    ensures forall c :: IsLatinCapital(c) ==> 0 <= LetterEntry(c) < |LatinToCyrillic| && LatinToCyrillic[LetterEntry(c)].0 == [c]
  {
  }

  /**
   * A table with a one-letter entry for every Latin capital, and whose entries
   * write no Latin capital, leaves none in any text.
   */
  lemma CapitalsAllReplaced(s: string, d: Dictionary)
    requires WellFormed(d)
    requires forall i, c :: 0 <= i < |d| && c in d[i].1 ==> !IsLatinCapital(c)
    requires forall c :: IsLatinCapital(c) ==> 0 <= LetterEntry(c) < |d| && d[LetterEntry(c)].0 == [c]
    ensures forall c :: c in Transliterated(s, d) ==> !IsLatinCapital(c)
  {
    forall c | IsLatinCapital(c) ensures c !in Transliterated(s, d) {
      SingleKeyRemoved(s, d, LetterEntry(c), c);
    }
  }

  /** After Latin-to-Cyrillic transliteration no Latin capital is left, whatever the text. */
  lemma LatinCapitalsAllReplaced(s: string)
    ensures WellFormed(LatinToCyrillic)
    ensures forall c :: c in Transliterated(s, LatinToCyrillic) ==> !IsLatinCapital(c)
  {
    LatinTableWellFormed();
    LatinTableValues();
    LatinTableLetters();
    CapitalsAllReplaced(s, LatinToCyrillic);
  }

  /** When the first entry's output holds no character of any key, the later entries do nothing. */
  lemma FirstEntryOnly(s: string, d: Dictionary)
    requires WellFormed(d) && d != []
    requires forall i, c :: 0 <= i < |d| && c in d[i].0 ==> c !in ReplaceAll(s, d[0].0, d[0].1)
    ensures Transliterated(s, d) == ReplaceAll(s, d[0].0, d[0].1)
  {
    UntouchedText(ReplaceAll(s, d[0].0, d[0].1), d[1..]);
  }

  /** The three-letter digraph wins over its parts: "SCH" reads as one letter. */
  lemma SchReadsAsShcha()
    ensures WellFormed(LatinToCyrillic)
    ensures Transliterated("SCH", LatinToCyrillic) == "Щ"
  {
    LatinTableWellFormed();
    LatinTableKeys();
    assert LatinToCyrillic[0] == ("SCH", "Щ");
    assert OccursAt("SCH", "SCH", 0);
    assert ReplaceAll("SCH", "SCH", "Щ") == ReplaceAll("Щ", "SCH", "Щ");
    assert IndexOf("Щ", "SCH") == -1;
    FirstEntryOnly("SCH", LatinToCyrillic);
  }

  /** Inverting a table whose values are non-empty and share no character with their keys yields a usable table. */
  lemma InvertedWellFormed(d: Dictionary)
    requires forall i :: 0 <= i < |d| ==> d[i].1 != [] && Disjoint(d[i].1, d[i].0)
    requires forall i, c :: 0 <= i < |d| && c in d[i].0 ==> IsLatinCapital(c)
    ensures WellFormed(Inverted(d))
    ensures forall i, c :: 0 <= i < |Inverted(d)| && c in Inverted(d)[i].1 ==> IsLatinCapital(c)
  {
    InvertedEntries(d);
    forall j | 0 <= j < |Inverted(d)|
      ensures Inverted(d)[j].0 != [] && Disjoint(Inverted(d)[j].0, Inverted(d)[j].1)
      ensures forall c :: c in Inverted(d)[j].1 ==> IsLatinCapital(c)
    {
      var i :| 0 <= i < |d| && Inverted(d)[j] == (d[i].1, d[i].0);
    }
  }

  lemma LatinTableReversible()
    ensures forall i :: 0 <= i < |LatinToCyrillic| ==> LatinToCyrillic[i].1 != [] && Disjoint(LatinToCyrillic[i].1, LatinToCyrillic[i].0)
  {
  }

  lemma CyrillicToLatinShape()
    ensures WellFormed(CyrillicToLatin)
    ensures forall i, c :: 0 <= i < |CyrillicToLatin| && c in CyrillicToLatin[i].1 ==> IsLatinCapital(c)
  {
    LatinTableReversible();
    LatinTableKeys();
    InvertedWellFormed(LatinToCyrillic);
  }

  /**
   * Reading the Latin table backwards: a Cyrillic spelling reached from several
   * Latin spellings reads back as the last of them (К from C, K and Q reads
   * back as Q).
   */
  lemma KaReadsBackAsQ()
    ensures Get(CyrillicToLatin, "К") == Some("Q")
  {
    GetInverted(LatinToCyrillic, "К", 29);
  }

  /** В, reached from V and W, reads back as W. */
  lemma VeReadsBackAsW()
    ensures Get(CyrillicToLatin, "В") == Some("W")
  {
    GetInverted(LatinToCyrillic, "В", 35);
  }

  /** "КС", reached only from X, reads back as X. */
  lemma KsReadsBackAsX()
    ensures Get(CyrillicToLatin, "КС") == Some("X")
  {
    GetInverted(LatinToCyrillic, "КС", 36);
  }

  /** In the reverse table the one-letter "К" entry comes before the "КС" entry. */
  lemma KaPrecedesKs()
    ensures var t := CyrillicToLatin;
            0 <= KeyIndex(t, "К") < KeyIndex(t, "КС") &&
            t[KeyIndex(t, "К")].0 == ['К'] && 'К' in t[KeyIndex(t, "КС")].0
  {
    InvertedOrder(LatinToCyrillic, "К", "КС", 15, 36);
  }

  /**
   * The reverse table's "КС" entry never fires: it comes after the "К" entry,
   * which has already turned every К into Q, so dropping it changes nothing.
   */
  lemma KsEntryNeverFires(s: string)
    ensures WellFormed(CyrillicToLatin)
    ensures exists q ::
              0 <= q < |CyrillicToLatin| && CyrillicToLatin[q].0 == "КС" &&
              WellFormed(CyrillicToLatin[..q] + CyrillicToLatin[q + 1..]) &&
              Transliterated(s, CyrillicToLatin) == Transliterated(s, CyrillicToLatin[..q] + CyrillicToLatin[q + 1..])
  {
    CyrillicToLatinShape();
    KaPrecedesKs();
    ShadowedByNonLatin(s, CyrillicToLatin, 'К', "КС");
  }

  /** In a table that writes only Latin capitals, a key shadowed by an earlier non-Latin one-character key can go. */
  lemma ShadowedByNonLatin(s: string, t: Dictionary, c: char, key: string)
    requires WellFormed(t) && 0 <= KeyIndex(t, [c]) < KeyIndex(t, key) && c in key && !IsLatinCapital(c)
    requires forall i, x :: 0 <= i < |t| && x in t[i].1 ==> IsLatinCapital(x)
    ensures exists q ::
              0 <= q < |t| && t[q].0 == key &&
              WellFormed(t[..q] + t[q + 1..]) && Transliterated(s, t) == Transliterated(s, t[..q] + t[q + 1..])
  {
    var p, q := KeyIndex(t, [c]), KeyIndex(t, key);
    assert forall i :: 0 <= i < |t| ==> c !in t[i].1;
    ShadowedEntryIsDead(s, t, p, q, c);
  }

  // ---------------------------------------------------------------------------
  // The public transliterations

  lemma KazakhTableWellFormed()
    ensures WellFormed(KazakhToRussian)
  {
  }

  method TransliterateLatinToCyrillic(text: Option<string>) returns (r: Option<string>)
    ensures WellFormed(LatinToCyrillic)
    ensures text.None? ==> r.None?
    ensures text.Some? ==> r == Some(Transliterated(text.value, LatinToCyrillic))
  {
    LatinTableWellFormed();
    r := Transliterate(text, LatinToCyrillic);
  }

  method TransliterateKazakhToRussian(text: Option<string>) returns (r: Option<string>)
    ensures WellFormed(KazakhToRussian)
    ensures text.None? ==> r.None?
    ensures text.Some? ==> r == Some(Transliterated(text.value, KazakhToRussian))
  {
    KazakhTableWellFormed();
    r := Transliterate(text, KazakhToRussian);
  }

  method TransliterateCyrillicToLatin(text: Option<string>) returns (r: Option<string>)
    ensures WellFormed(CyrillicToLatin)
    ensures text.None? ==> r.None?
    ensures text.Some? ==> r == Some(Transliterated(text.value, CyrillicToLatin))
  {
    CyrillicToLatinShape();
    r := Transliterate(text, CyrillicToLatin);
  }

  // ---------------------------------------------------------------------------
  // One-letter tables act letter by letter

  /** Every occurrence of `k` written as `v`. */
  function SubstituteChar(s: string, k: char, v: char): (r: string)
    ensures |r| == |s|
    ensures forall i :: 0 <= i < |s| ==> r[i] == (if s[i] == k then v else s[i])
  {
    seq(|s|, i requires 0 <= i < |s| => if s[i] == k then v else s[i])
  }

  lemma {:induction false} ReplaceAllOneChar(s: string, k: char, v: char)
    requires k != v
    ensures Disjoint([k], [v])
    ensures ReplaceAll(s, [k], [v]) == SubstituteChar(s, k, v)
    decreases Count(s, [k])
  {
    var i := IndexOf(s, [k]);
    if i == -1 {
      AbsentCharStays(s, k, v);
    } else {
      var t := ReplaceAt(s, i, [k], [v]);
      ReplaceAtShrinksCount(s, i, [k], [v]);
      ReplaceAllOneChar(t, k, v);
      OneCharReplaced(s, i, k, v);
    }
  }

  lemma AbsentCharStays(s: string, k: char, v: char)
    requires IndexOf(s, [k]) == -1
    ensures SubstituteChar(s, k, v) == s
  {
    forall j | 0 <= j < |s| ensures s[j] != k {
      if s[j] == k {
        assert OccursAt(s, [k], j);
      }
    }
  }

  /** Writing the occurrence at `i` first leaves the same substitution to do. */
  lemma OneCharReplaced(s: string, i: nat, k: char, v: char)
    requires OccursAt(s, [k], i) && k != v
    ensures SubstituteChar(ReplaceAt(s, i, [k], [v]), k, v) == SubstituteChar(s, k, v)
  {
    assert s[i] == s[i..i + 1][0] == k;
    var t := ReplaceAt(s, i, [k], [v]);
    assert forall j :: 0 <= j < |s| ==> t[j] == (if j == i then v else s[j]);
  }

  /** Every entry turns one character into one other character that no entry reads. */
  predicate IsLetterTable(d: Dictionary) {
    (forall i :: 0 <= i < |d| ==> |d[i].0| == 1 && |d[i].1| == 1 && d[i].0 != d[i].1) &&
    (forall i, j :: 0 <= i < |d| && 0 <= j < |d| ==> d[i].1 != d[j].0)
  }

  /** The letter the first entry reading `c` writes, or `c` itself. */
  function LetterLookup(d: Dictionary, c: char): char {
    if d == [] then c
    else if d[0].0 == [c] && d[0].1 != [] then d[0].1[0]
    else LetterLookup(d[1..], c)
  }

  /** A letter table rewrites a text letter by letter, every letter looked up once. */
  lemma {:induction false} LetterTableActsPerLetter(s: string, d: Dictionary)
    requires WellFormed(d) && IsLetterTable(d)
    ensures |Transliterated(s, d)| == |s|
    ensures forall i :: 0 <= i < |s| ==> Transliterated(s, d)[i] == LetterLookup(d, s[i])
    decreases |d|
  {
    if d != [] {
      var k := d[0].0[0];
      var v := d[0].1[0];
      assert d[0].0 == [k] && d[0].1 == [v];
      ReplaceAllOneChar(s, k, v);
      var t := SubstituteChar(s, k, v);
      LetterTableActsPerLetter(t, d[1..]);
      forall i | 0 <= i < |s| ensures Transliterated(s, d)[i] == LetterLookup(d, s[i]) {
        if s[i] == k {
          LetterLookupOfUnread(d[1..], v);
        }
      }
    }
  }

  lemma {:induction false} LetterLookupOfUnread(d: Dictionary, c: char)
    requires IsLetterTable(d)
    requires forall j :: 0 <= j < |d| ==> d[j].0 != [c]
    ensures LetterLookup(d, c) == c
    decreases |d|
  {
    if d != [] {
      LetterLookupOfUnread(d[1..], c);
    }
  }

  /** The Kazakh-only letters and their Russian stand-ins, letter by letter. */
  function KazakhLetterToRussian(c: char): char {
    match c
    case 'Ә' => 'А'
    case 'Қ' => 'К'
    case 'Ң' => 'Н'
    case 'Ө' => 'О'
    case 'Ұ' => 'У'
    case 'Ү' => 'Ю'
    case 'Һ' => 'Х'
    case 'І' => 'И'
    case _ => c
  }

  lemma KazakhTableIsLetterTable()
    ensures IsLetterTable(KazakhToRussian)
  {
  }

  /** Kazakh-to-Russian transliteration replaces exactly the eight Kazakh-only letters and keeps the length. */
  lemma KazakhToRussianPerLetter(s: string)
    ensures WellFormed(KazakhToRussian)
    ensures |Transliterated(s, KazakhToRussian)| == |s|
    ensures forall i :: 0 <= i < |s| ==> Transliterated(s, KazakhToRussian)[i] == KazakhLetterToRussian(s[i])
  {
    KazakhTableWellFormed();
    KazakhTableIsLetterTable();
    LetterTableActsPerLetter(s, KazakhToRussian);
    forall c: char ensures LetterLookup(KazakhToRussian, c) == KazakhLetterToRussian(c) {
      KazakhLookup(c);
    }
  }

  lemma KazakhLookup(c: char)
    ensures LetterLookup(KazakhToRussian, c) == KazakhLetterToRussian(c)
  {
    var d0 := KazakhToRussian;
    var d1 := d0[1..];
    assert d1 == [("Қ", "К"), ("Ң", "Н"), ("Ө", "О"), ("Ұ", "У"), ("Ү", "Ю"), ("Һ", "Х"), ("І", "И")];
    var d2 := d1[1..];
    assert d2 == [("Ң", "Н"), ("Ө", "О"), ("Ұ", "У"), ("Ү", "Ю"), ("Һ", "Х"), ("І", "И")];
    var d3 := d2[1..];
    assert d3 == [("Ө", "О"), ("Ұ", "У"), ("Ү", "Ю"), ("Һ", "Х"), ("І", "И")];
    var d4 := d3[1..];
    assert d4 == [("Ұ", "У"), ("Ү", "Ю"), ("Һ", "Х"), ("І", "И")];
    var d5 := d4[1..];
    assert d5 == [("Ү", "Ю"), ("Һ", "Х"), ("І", "И")];
    var d6 := d5[1..];
    assert d6 == [("Һ", "Х"), ("І", "И")];
    var d7 := d6[1..];
    assert d7 == [("І", "И")];
    var d8 := d7[1..];
    assert d8 == [];
    assert LetterLookup(d8, c) == c;
    assert LetterLookup(d7, c) == if c == 'І' then 'И' else LetterLookup(d8, c);
    assert LetterLookup(d6, c) == if c == 'Һ' then 'Х' else LetterLookup(d7, c);
    assert LetterLookup(d5, c) == if c == 'Ү' then 'Ю' else LetterLookup(d6, c);
    assert LetterLookup(d4, c) == if c == 'Ұ' then 'У' else LetterLookup(d5, c);
    assert LetterLookup(d3, c) == if c == 'Ө' then 'О' else LetterLookup(d4, c);
    assert LetterLookup(d2, c) == if c == 'Ң' then 'Н' else LetterLookup(d3, c);
    assert LetterLookup(d1, c) == if c == 'Қ' then 'К' else LetterLookup(d2, c);
    assert LetterLookup(d0, c) == if c == 'Ә' then 'А' else LetterLookup(d1, c);
  }

  // ---------------------------------------------------------------------------
  // Look-alike repair and the Latin test

  /** MIXED_CHAR_FIX.getOrDefault(c, c). */
  function FixChar(c: char): char {
    if c in MixedCharFix then MixedCharFix[c] else c
  }

  /** fixMixedCharacters: a missing text stays missing; otherwise every character is repaired on its own. */
  method FixMixedCharacters(text: Option<string>) returns (r: Option<string>)
    ensures r.None? <==> text.None?
    ensures r.Some? ==> |r.value| == |text.value|
    ensures r.Some? ==> forall i :: 0 <= i < |r.value| ==> r.value[i] == FixChar(text.value[i])
  {
    if text.None? {
      return None;
    }
    var fixed: string := [];
    for i := 0 to |text.value|
      invariant |fixed| == i
      invariant forall j :: 0 <= j < i ==> fixed[j] == FixChar(text.value[j])
    {
      fixed := fixed + [FixChar(text.value[i])];
    }
    r := Some(fixed);
  }

  /** Repair changes exactly the eleven Cyrillic look-alikes, each into a Latin capital, and repairing twice is repairing once. */
  lemma FixCharMeaning(c: char)
    ensures FixChar(c) != c <==> c in MixedCharFix
    ensures c in MixedCharFix ==> IsLatinCapital(FixChar(c))
    ensures FixChar(c) !in MixedCharFix
    ensures FixChar(FixChar(c)) == FixChar(c)
  {
  }

  predicate IsAsciiLetter(c: char) {
    'A' <= c <= 'Z' || 'a' <= c <= 'z'
  }

  /** Matched by ".*": no line terminator. */
  predicate IsSingleLine(s: string) {
    forall k :: 0 <= k < |s| ==> !IsLineTerminator(s[k])
  }

  /**
   * isLatin: text.matches(".*[A-Za-z].*") – the whole text splits into a
   * part matched by ".*", one ASCII letter, and another part matched by ".*".
   */
  function IsLatin(text: string): bool {
    exists i :: 0 <= i < |text| && IsSingleLine(text[..i]) && IsAsciiLetter(text[i]) && IsSingleLine(text[i + 1..])
  }

  /** A text is Latin exactly when it is a single line holding at least one ASCII letter. */
  lemma IsLatinMeaning(text: string)
    ensures IsLatin(text) <==> IsSingleLine(text) && exists i :: 0 <= i < |text| && IsAsciiLetter(text[i])
  {
    if IsLatin(text) {
      var i :| 0 <= i < |text| && IsSingleLine(text[..i]) && IsAsciiLetter(text[i]) && IsSingleLine(text[i + 1..]);
      forall k | 0 <= k < |text| ensures !IsLineTerminator(text[k]) {
        if k < i {
          assert text[k] == text[..i][k];
        } else if k > i {
          assert text[k] == text[i + 1..][k - i - 1];
        }
      }
    }
    if IsSingleLine(text) && exists i :: 0 <= i < |text| && IsAsciiLetter(text[i]) {
      var i :| 0 <= i < |text| && IsAsciiLetter(text[i]);
      assert IsSingleLine(text[..i]) && IsSingleLine(text[i + 1..]);
    }
  }
}
