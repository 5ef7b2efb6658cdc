/** `formatLabelFromKey`: the display label synthesised for an action key that
    has no metadata entry. The key is split on `_`, each part gets its first
    character upper-cased, and the parts are joined with spaces. Upper-casing
    is a parameter: it stands for JavaScript's locale-independent
    `toUpperCase` on the first UTF-16 code unit, so outside the Basic
    Multilingual Plane it is the identity. */
module Labels {
  import opened Seqs

  /** Number of occurrences of `c` in `s`. */
  function Count(s: string, c: char): nat
  {
    if s == [] then 0 else (if s[0] == c then 1 else 0) + Count(s[1..], c)
  }

  /** Index of the first occurrence of `c` in `s`. */
  function IndexOf(s: string, c: char): (i: nat)
    requires c in s
    ensures i < |s| && s[i] == c && c !in s[..i]
  {
    if s[0] == c then 0 else 1 + IndexOf(s[1..], c)
  }

  /** `s.split(sep)`: the empty string gives one empty part, and two adjacent
      separators give an empty part between them. */
  function Split(s: string, sep: char): (parts: seq<string>)
    ensures |parts| == Count(s, sep) + 1
    ensures forall i :: 0 <= i < |parts| ==> sep !in parts[i]
    decreases |s|
  {
    if sep !in s then
      assert Count(s, sep) == 0 by { CountAbsent(s, sep); }
      [s]
    else
      var i := IndexOf(s, sep);
      CountSplit(s, sep, i);
      [s[..i]] + Split(s[i + 1..], sep)
  }

  lemma {:induction false} CountAbsent(s: string, c: char)
    requires c !in s
    ensures Count(s, c) == 0
  {
    if s != [] {
      CountAbsent(s[1..], c);
    }
  }

  lemma {:induction false} CountSplit(s: string, c: char, i: nat)
    requires i < |s| && s[i] == c && c !in s[..i]
    ensures Count(s, c) == 1 + Count(s[i + 1..], c)
  {
    if i > 0 {
      assert s[1..][..i - 1] == s[..i][1..];
      CountSplit(s[1..], c, i - 1);
      assert s[1..][i..] == s[i + 1..];
    }
  }

  /** Splitting and re-joining with the same separator gives the key back. */
  lemma {:induction false} JoinSplit(s: string, sep: char)
    ensures Join(Split(s, sep), sep) == s
    decreases |s|
  {
    if sep in s {
      var i := IndexOf(s, sep);
      JoinSplit(s[i + 1..], sep);
      assert s == s[..i] + [sep] + s[i + 1..];
    }
  }

  /** `part.charAt(0).toUpperCase() + part.slice(1)`. */
  function Capitalize(part: string, upper: char -> char): string
  {
    if part == [] then [] else [upper(part[0])] + part[1..]
  }

  /** `parts.map(Capitalize)`. */
  function CapitalizeAll(parts: seq<string>, upper: char -> char): (r: seq<string>)
    ensures |r| == |parts|
  {
    if parts == [] then [] else [Capitalize(parts[0], upper)] + CapitalizeAll(parts[1..], upper)
  }

  /** What the label holds at position `i` of the key: a space for `_`, the
      upper-cased character at the start of a part, the key's own character
      elsewhere. */
  function TitleChar(key: string, upper: char -> char, i: nat): char
    requires i < |key|
  {
    if key[i] == '_' then ' '
    else if i == 0 || key[i - 1] == '_' then upper(key[i])
    else key[i]
  }

  /** `formatLabelFromKey`. The label has the key's length and, position by
      position, a space for every `_`, the upper-cased character at the start
      of each part, and the key's character everywhere else. */
  function FormatLabelFromKey(key: string, upper: char -> char): (title: string)
    ensures |title| == |key|
    ensures forall i :: 0 <= i < |key| ==> title[i] == TitleChar(key, upper, i)
  {
    FormatPointwise(key, upper);
    Join(CapitalizeAll(Split(key, '_'), upper), ' ')
  }

  lemma {:induction false} FormatPointwise(key: string, upper: char -> char)
    ensures var title := Join(CapitalizeAll(Split(key, '_'), upper), ' ');
            |title| == |key| &&
            forall i :: 0 <= i < |key| ==> title[i] == TitleChar(key, upper, i)
    decreases |key|
  {
    var title := Join(CapitalizeAll(Split(key, '_'), upper), ' ');
    if '_' !in key {
      assert title == Capitalize(key, upper);
    } else {
      var k := IndexOf(key, '_');
      var rest := key[k + 1..];
      FormatPointwise(rest, upper);
      var tail := Join(CapitalizeAll(Split(rest, '_'), upper), ' ');
      assert CapitalizeAll(Split(key, '_'), upper)
          == [Capitalize(key[..k], upper)] + CapitalizeAll(Split(rest, '_'), upper);
      assert title == Capitalize(key[..k], upper) + [' '] + tail;
      FirstPartPointwise(key, upper, k, tail);
      LaterPartsPointwise(key, upper, k, tail);
    }
  }

  /** The label's first part, up to the first `_`, is formatted position by
      position. */
  lemma FirstPartPointwise(key: string, upper: char -> char, k: nat, tail: string)
    requires k < |key| && key[k] == '_' && '_' !in key[..k]
    ensures var title := Capitalize(key[..k], upper) + [' '] + tail;
            forall i :: 0 <= i <= k ==> title[i] == TitleChar(key, upper, i)
  {
    var title := Capitalize(key[..k], upper) + [' '] + tail;
    forall i | 0 <= i <= k
      ensures title[i] == TitleChar(key, upper, i)
    {
      if i < k {
        assert key[i] == key[..k][i];
        if i > 0 {
          assert key[i - 1] == key[..k][i - 1];
        }
      }
    }
  }

  /** After the first `_`, the label is the label of the rest of the key. */
  lemma LaterPartsPointwise(key: string, upper: char -> char, k: nat, tail: string)
    requires k < |key| && key[k] == '_'
    requires |tail| == |key| - k - 1
    requires forall j :: 0 <= j < |tail| ==> tail[j] == TitleChar(key[k + 1..], upper, j)
    ensures var title := Capitalize(key[..k], upper) + [' '] + tail;
            forall i :: k < i < |key| ==> title[i] == TitleChar(key, upper, i)
  {
    var title := Capitalize(key[..k], upper) + [' '] + tail;
    var rest := key[k + 1..];
    forall i | k < i < |key|
      ensures title[i] == TitleChar(key, upper, i)
    {
      assert title[i] == tail[i - k - 1];
      assert rest[i - k - 1] == key[i];
      if i - k - 1 > 0 {
        assert rest[i - k - 2] == key[i - 1];
      }
    }
  }

  /** Whenever upper-casing never produces `_` from another character, a
      synthesised label contains no `_`. */
  lemma FormatLabelHasNoUnderscore(key: string, upper: char -> char)
    requires forall c :: c != '_' ==> upper(c) != '_'
    ensures '_' !in FormatLabelFromKey(key, upper)
  {
    var title := FormatLabelFromKey(key, upper);
    forall i | 0 <= i < |title|
      ensures title[i] != '_'
    {
      assert title[i] == TitleChar(key, upper, i);
    }
  }
}
