/**
 * The Google Sheets handler (`netlify/functions/restaurants.js`): the
 * identifier rule `makeId`, the brace slicing of `parseGviz`, the column
 * lookup `colIndex`, the required-column check and the row loop that builds
 * the restaurant list. Fetching the sheet and `JSON.parse` are outside the
 * model: the upstream answer and the parser are parameters of `Handler`.
 */
module Sheets {
  import opened Wrappers
  import opened Text
  import opened JsValues
  import opened Seqs

  /** One entry of the response's `restaurants` array. */
  datatype Restaurant = Restaurant(
    id: string,
    name: string,
    cuisine: string,
    zone: string,
    deliveryUrl: string,
    mapsUrl: string,
    image: string)

  // ---------------------------------------------------------------------------
  // makeId

  const MaxIdLength: nat := 80

  /** Prepending one character keeps a string free of white space or capitals
      when that character is. */
  lemma ConsFacts(c: char, t: string)
    ensures !IsSpace(c) && NoSpace(t) ==> NoSpace([c] + t)
    ensures !IsUpper(c) && NoUpper(t) ==> NoUpper([c] + t)
  {
    assert forall i :: 1 <= i <= |t| ==> ([c] + t)[i] == t[i - 1];
  }

  /** A suffix of a string free of white space or capitals is too. */
  lemma SuffixFacts(s: string, k: nat)
    requires k <= |s|
    ensures NoSpace(s) ==> NoSpace(s[k..])
    ensures NoUpper(s) ==> NoUpper(s[k..])
  {
    assert forall i :: 0 <= i < |s| - k ==> s[k..][i] == s[k + i];
  }

  /** `s.replace(/\s+/g, "-")`, reading left to right: the first white-space
      character of a run becomes `-`, the rest of the run is dropped.
      `inRun` says whether the character before `s` was white space. */
  function CollapseRun(s: string, inRun: bool): (r: string)
    ensures NoSpace(r)
    ensures |r| <= |s|
    ensures NoUpper(s) ==> NoUpper(r)
    ensures NoSpace(s) ==> r == s
  {
    if s == [] then []
    else
      var rest := CollapseRun(s[1..], IsSpace(s[0]));
      SuffixFacts(s, 1);
      if IsSpace(s[0]) then
        if inRun then rest
        else ConsFacts('-', rest); "-" + rest
      else
        ConsFacts(s[0], rest);
        assert s == [s[0]] + s[1..];
        [s[0]] + rest
  }

  function CollapseSpaces(s: string): (r: string)
    ensures NoSpace(r)
    ensures |r| <= |s|
    ensures NoUpper(s) ==> NoUpper(r)
    ensures NoSpace(s) ==> r == s
  {
    CollapseRun(s, false)
  }

  /** Collapsing works left to right: what a piece after `a` becomes depends
      only on whether `a` ended in white space. */
  lemma {:induction false} CollapseRunAppend(a: string, t: string, inRun: bool)
    ensures CollapseRun(a + t, inRun)
            == CollapseRun(a, inRun) + CollapseRun(t, if a == [] then inRun else IsSpace(a[|a| - 1]))
    decreases |a|
  {
    if a == [] {
      assert a + t == t;
    } else {
      var rest, run := a[1..], IsSpace(a[0]);
      var head: string := if run then (if inRun then [] else "-") else [a[0]];
      assert (a + t)[0] == a[0];
      assert (a + t)[1..] == rest + t;
      assert CollapseRun(a + t, inRun) == head + CollapseRun(rest + t, run);
      assert CollapseRun(a, inRun) == head + CollapseRun(rest, run);
      CollapseRunAppend(rest, t, run);
      if |a| > 1 {
        assert rest[|a| - 2] == a[|a| - 1];
      }
      Assoc(head, CollapseRun(rest, run), CollapseRun(t, if rest == [] then run else IsSpace(rest[|rest| - 1])));
    }
  }

  /** A run made only of white space becomes one `-`, or nothing when it
      continues a run. */
  lemma {:induction false} CollapseSpaceOnly(w: string, inRun: bool)
    requires w != [] && AllSpace(w)
    ensures CollapseRun(w, inRun) == if inRun then [] else "-"
    decreases |w|
  {
    if |w| > 1 {
      assert AllSpace(w[1..]) by {
        forall i | 0 <= i < |w| - 1 ensures IsSpace(w[1..][i]) {
          assert w[1..][i] == w[i + 1];
        }
      }
      CollapseSpaceOnly(w[1..], true);
    } else {
      assert w[1..] == [];
    }
  }

  /** Text that does not start with white space collapses the same whether or
      not a run came before it. */
  lemma CollapseAfterRun(b: string)
    requires b == [] || !IsSpace(b[0])
    ensures CollapseRun(b, true) == CollapseRun(b, false)
  {
  }

  /** Each maximal run of white space, whatever its length, becomes exactly
      one `-`, and the text on either side collapses on its own. */
  lemma CollapseRunToDash(a: string, w: string, b: string)
    requires a == [] || !IsSpace(a[|a| - 1])
    requires w != [] && AllSpace(w)
    requires b == [] || !IsSpace(b[0])
    ensures CollapseSpaces(a + w + b) == CollapseSpaces(a) + "-" + CollapseSpaces(b)
  {
    var left, right := CollapseSpaces(a), CollapseSpaces(b);
    CollapseRunAppend(w, b, false);
    CollapseSpaceOnly(w, false);
    CollapseAfterRun(b);
    assert CollapseSpaces(w + b) == "-" + right;
    Assoc(a, w, b);
    CollapseRunAppend(a, w + b, false);
    assert CollapseSpaces(a + w + b) == left + ("-" + right);
    Assoc(left, "-", right);
  }

  /** Text without white space is kept, character for character, in front of
      whatever follows it. */
  lemma CollapseKeepsWord(a: string, b: string)
    requires NoSpace(a)
    ensures CollapseSpaces(a + b) == a + CollapseSpaces(b)
  {
    CollapseRunAppend(a, b, false);
  }

  /** The accented letters the identifier keeps, and their capitals. */
  predicate IsAccented(c: char) {
    c == 'á' || c == 'é' || c == 'í' || c == 'ó' || c == 'ú' || c == 'ü' || c == 'ñ'
  }

  predicate IsAccentedCapital(c: char) {
    c == 'Á' || c == 'É' || c == 'Í' || c == 'Ó' || c == 'Ú' || c == 'Ü' || c == 'Ñ'
  }

  /** What `/[^a-z0-9\-áéíóúüñ]/gi` does not match. The `i` flag makes the
      class match the capitals of its letters as well. */
  predicate IsIdChar(c: char) {
    ('a' <= c <= 'z') || ('A' <= c <= 'Z') || IsDigit(c) || c == '-' || IsAccented(c) || IsAccentedCapital(c)
  }

  /** The characters an identifier is made of. */
  predicate IsLowerIdChar(c: char) {
    ('a' <= c <= 'z') || IsDigit(c) || c == '-' || IsAccented(c)
  }

  /** Text made only of identifier characters. */
  predicate IsIdText(s: string) {
    forall i :: 0 <= i < |s| ==> IsLowerIdChar(s[i])
  }

  /** A kept character that is not a capital is a lower-case identifier character. */
  lemma IdCharNotUpper(c: char)
    requires IsIdChar(c) && !IsUpper(c)
    ensures IsLowerIdChar(c)
  {
  }

  /** `s.replace(/[^a-z0-9\-áéíóúüñ]/gi, "")`: deletes every other character. */
  function KeepIdChars(s: string): (r: string)
    ensures forall i :: 0 <= i < |r| ==> IsIdChar(r[i])
    ensures NoUpper(s) ==> NoUpper(r)
    ensures |r| <= |s|
    ensures (forall i :: 0 <= i < |s| ==> IsIdChar(s[i])) ==> r == s
  {
    if s == [] then [] else (if IsIdChar(s[0]) then [s[0]] else []) + KeepIdChars(s[1..])
  }

  /** The filter works character by character, so it distributes over
      concatenation and keeps what it keeps in order. */
  lemma {:induction false} KeepIdCharsConcat(a: string, b: string)
    ensures KeepIdChars(a + b) == KeepIdChars(a) + KeepIdChars(b)
    decreases |a|
  {
    if a == [] {
      assert a + b == b;
    } else {
      var head: string := if IsIdChar(a[0]) then [a[0]] else [];
      assert (a + b)[0] == a[0];
      assert (a + b)[1..] == a[1..] + b;
      assert KeepIdChars(a + b) == head + KeepIdChars(a[1..] + b);
      KeepIdCharsConcat(a[1..], b);
      Assoc(head, KeepIdChars(a[1..]), KeepIdChars(b));
    }
  }

  /** A single character is kept exactly when it is an identifier character. */
  lemma KeepIdCharsSingle(c: char)
    ensures KeepIdChars([c]) == if IsIdChar(c) then [c] else []
  {
    assert [c][1..] == [];
  }

  /** The template `${name}-${zone}-${idx}` with both names normalised and lower-cased. */
  function IdBase(name: string, zone: string, idx: int): string {
    ToLower(Normalize(Str(name))) + "-" + ToLower(Normalize(Str(zone))) + "-" + IntToDecimal(idx)
  }

  /** The identifier before it is cut to length. */
  function IdText(name: string, zone: string, idx: int): string {
    KeepIdChars(CollapseSpaces(IdBase(name, zone, idx)))
  }

  /** The template holds no capital letter. */
  lemma IdBaseIsLower(name: string, zone: string, idx: int)
    ensures NoUpper(IdBase(name, zone, idx))
  {
    var a, b, d := ToLower(Normalize(Str(name))), ToLower(Normalize(Str(zone))), IntToDecimal(idx);
    assert NoUpper("-");
    NoUpperConcat(a, "-");
    NoUpperConcat(a + "-", b);
    NoUpperConcat(a + "-" + b, "-");
    NoUpperConcat(a + "-" + b + "-", d);
  }

  /** After lower-casing and filtering, only lower-case identifier characters remain. */
  lemma IdTextIsLower(name: string, zone: string, idx: int)
    ensures IsIdText(IdText(name, zone, idx))
  {
    IdBaseIsLower(name, zone, idx);
    var t := IdText(name, zone, idx);
    forall i | 0 <= i < |t| ensures IsLowerIdChar(t[i]) {
      IdCharNotUpper(t[i]);
    }
  }

  lemma IdCharNotSpace(c: char)
    requires IsLowerIdChar(c)
    ensures !IsSpace(c)
  {
  }

  /** Any prefix of identifier text is identifier text, and has no white space. */
  lemma IdTextPrefix(t: string, n: nat)
    requires IsIdText(t) && n <= |t|
    ensures IsIdText(t[..n]) && NoSpace(t[..n])
  {
    forall i | 0 <= i < n ensures IsLowerIdChar(t[..n][i]) && !IsSpace(t[..n][i]) {
      assert t[..n][i] == t[i];
      IdCharNotSpace(t[i]);
    }
  }

  /** `makeId(name, zone, idx)`: at most 80 characters, all of them lower-case
      letters, digits, `-` or one of áéíóúüñ, so no white space. */
  function MakeId(name: string, zone: string, idx: int): (r: string)
    ensures |r| <= MaxIdLength
    ensures IsIdText(r) && NoSpace(r)
  {
    IdTextIsLower(name, zone, idx);
    CutId(IdText(name, zone, idx))
  }

  /** The identifier is the first 80 characters of the filtered template, or
      all of it when it is shorter. */
  lemma MakeIdIsPrefix(name: string, zone: string, idx: int)
    ensures var t, r := IdText(name, zone, idx), MakeId(name, zone, idx);
            |r| == Min(MaxIdLength, |t|) && r == t[..|r|]
  {
  }

  /** `.slice(0, 80)` on identifier text: a prefix of at most 80 characters
      that is still identifier text. */
  function CutId(t: string): (r: string)
    ensures |r| == Min(MaxIdLength, |t|) <= MaxIdLength && r == t[..|r|]
    ensures IsIdText(t) ==> IsIdText(r) && NoSpace(r)
  {
    if IsIdText(t) then IdTextPrefix(t, Min(MaxIdLength, |t|)); Truncate(t, MaxIdLength)
    else Truncate(t, MaxIdLength)
  }

  lemma IdTextConcat(a: string, b: string)
    requires IsIdText(a) && IsIdText(b)
    ensures IsIdText(a + b)
  {
  }

  /** Identifier text has no white space, no capital, and survives the filter. */
  lemma IdTextFacts(s: string)
    requires IsIdText(s)
    ensures NoSpace(s) && NoUpper(s)
    ensures forall i :: 0 <= i < |s| ==> IsIdChar(s[i])
  {
    forall i | 0 <= i < |s| ensures !IsSpace(s[i]) {
      IdCharNotSpace(s[i]);
    }
  }

  /** Identifier text is its own normalised, lower-cased form. */
  lemma PlainFieldUnchanged(s: string)
    requires IsIdText(s)
    ensures ToLower(Normalize(Str(s))) == s
  {
    IdTextFacts(s);
    TrimOfSpaceFree(s);
    ToLowerOfLower(s);
  }

  /** When the template, once its white space is collapsed, is identifier
      text of at most 80 characters, that text is the identifier. */
  lemma MakeIdOfIdText(name: string, zone: string, idx: int, t: string)
    requires CollapseSpaces(IdBase(name, zone, idx)) == t
    requires IsIdText(t) && |t| <= MaxIdLength
    ensures MakeId(name, zone, idx) == t
  {
    IdTextFacts(t);
    assert KeepIdChars(t) == t;
  }

  /** The template of fields already in identifier form is those fields
      joined by dashes with the ordinal. */
  lemma PlainBase(name: string, zone: string, idx: nat)
    requires IsIdText(name) && IsIdText(zone)
    ensures IdBase(name, zone, idx) == name + "-" + zone + "-" + NatToDecimal(idx)
  {
    PlainFieldUnchanged(name);
    PlainFieldUnchanged(zone);
  }

  /** A name and zone that are already lower-case identifier text are kept
      verbatim, joined by dashes with the ordinal, when they fit in 80 characters. */
  lemma MakeIdOfPlainFields(name: string, zone: string, idx: nat)
    requires IsIdText(name) && IsIdText(zone)
    requires |name| + |zone| + |NatToDecimal(idx)| + 2 <= MaxIdLength
    ensures MakeId(name, zone, idx) == name + "-" + zone + "-" + NatToDecimal(idx)
  {
    var digits := NatToDecimal(idx);
    assert IsIdText(digits);
    DashJoinIsIdText(name, zone);
    DashJoinIsIdText(name + "-" + zone, digits);
    var expected := name + "-" + zone + "-" + digits;
    IdTextFacts(expected);
    PlainBase(name, zone, idx);
    MakeIdOfIdText(name, zone, idx, expected);
  }

  /** Fields already in identifier form give the first 80 characters of
      `name-zone-idx`, however long it is. */
  lemma MakeIdOfLongPlainFields(name: string, zone: string, idx: nat)
    requires IsIdText(name) && IsIdText(zone)
    ensures var t := name + "-" + zone + "-" + NatToDecimal(idx);
            MakeId(name, zone, idx) == t[..Min(MaxIdLength, |t|)]
  {
    var digits := NatToDecimal(idx);
    assert IsIdText(digits);
    DashJoinIsIdText(name, zone);
    DashJoinIsIdText(name + "-" + zone, digits);
    var t := name + "-" + zone + "-" + digits;
    IdTextFacts(t);
    PlainBase(name, zone, idx);
    assert KeepIdChars(CollapseSpaces(t)) == t;
    MakeIdIsPrefix(name, zone, idx);
  }

  /** Cutting to 80 characters text whose first part already has 80 drops the rest. */
  lemma CutAtCapacity(prefix: string, first: string, last: string)
    requires |prefix + first| == MaxIdLength
    ensures (prefix + (first + last))[..MaxIdLength] == prefix + first
  {
    Assoc(prefix, first, last);
  }

  /** A one-digit ordinal that exactly fills the 80 characters is kept whole. */
  lemma MakeIdFillsCapacity(name: string, zone: string, idx: nat)
    requires IsIdText(name) && IsIdText(zone)
    requires |name| + |zone| + 3 == MaxIdLength
    requires 1 <= idx < 10
    ensures MakeId(name, zone, idx) == name + "-" + zone + "-" + NatToDecimal(idx)
  {
    MakeIdOfLongPlainFields(name, zone, idx);
  }

  /** With room for one digit only, a two-digit ordinal loses its last digit. */
  lemma MakeIdDropsLastDigit(name: string, zone: string, idx: nat)
    requires IsIdText(name) && IsIdText(zone)
    requires |name| + |zone| + 3 == MaxIdLength
    requires 10 <= idx < 100
    ensures MakeId(name, zone, idx) == name + "-" + zone + "-" + NatToDecimal(idx / 10)
  {
    var prefix, first, last := name + "-" + zone + "-", NatToDecimal(idx / 10), [DigitChar(idx % 10)];
    assert NatToDecimal(idx) == first + last;
    CutAtCapacity(prefix, first, last);
    MakeIdOfLongPlainFields(name, zone, idx);
  }

  /** The cut to 80 characters can drop digits of the ordinal, so two rows
      can share an identifier: when the name and zone leave room for exactly
      one digit, a row numbered 10 to 99 gets the identifier of the row
      numbered with its first digit (12 and 1, say). */
  lemma MakeIdCutsOrdinal(name: string, zone: string, idx: nat)
    requires IsIdText(name) && IsIdText(zone)
    requires |name| + |zone| + 3 == MaxIdLength
    requires 10 <= idx < 100
    ensures MakeId(name, zone, idx) == MakeId(name, zone, idx / 10)
    ensures MakeId(name, zone, idx / 10) == name + "-" + zone + "-" + NatToDecimal(idx / 10)
  {
    MakeIdDropsLastDigit(name, zone, idx);
    MakeIdFillsCapacity(name, zone, idx / 10);
  }

  /** A space followed by text without white space becomes a dash. */
  lemma CollapseAtSpace(b: string)
    requires NoSpace(b)
    ensures CollapseSpaces(" " + b) == "-" + b
  {
    assert (" " + b)[1..] == b;
  }

  /** A character that is not white space is kept, and the rest is collapsed. */
  lemma CollapseAtWord(c: char, t: string)
    requires !IsSpace(c)
    ensures CollapseSpaces([c] + t) == [c] + CollapseSpaces(t)
  {
    assert ([c] + t)[1..] == t;
  }

  /** A single space between two words becomes a dash. */
  lemma {:induction false} CollapseSingleSpace(a: string, b: string)
    requires NoSpace(a) && NoSpace(b)
    ensures CollapseSpaces(a + " " + b) == a + "-" + b
    decreases |a|
  {
    if a == [] {
      assert a + " " + b == " " + b;
      CollapseAtSpace(b);
      assert a + "-" + b == "-" + b;
    } else {
      var t := a[1..] + " " + b;
      assert a + " " + b == [a[0]] + t;
      CollapseAtWord(a[0], t);
      SuffixFacts(a, 1);
      CollapseSingleSpace(a[1..], b);
      assert a + "-" + b == [a[0]] + (a[1..] + "-" + b);
    }
  }

  /** A word whose lower-case form is identifier text has no white space. */
  lemma LowerWordNoSpace(w: string)
    requires IsIdText(ToLower(w))
    ensures NoSpace(w)
  {
    forall i | 0 <= i < |w| ensures !IsSpace(w[i]) {
      assert ToLower(w)[i] == LowerChar(w[i]);
      IdCharNotSpace(ToLower(w)[i]);
    }
  }

  /** Two words separated by one space are their own normalised form, and
      lower-casing them lower-cases each word. */
  lemma SpacedNameLower(first: string, second: string)
    requires first != [] && second != [] && NoSpace(first) && NoSpace(second)
    ensures ToLower(Normalize(Str(first + " " + second))) == ToLower(first) + " " + ToLower(second)
  {
    var name := first + " " + second;
    assert name[0] == first[0] && name[|name| - 1] == second[|second| - 1];
    assert IsTrimmed(name);
    ToLowerConcat(first, " ");
    ToLowerConcat(first + " ", second);
    assert ToLower(" ") == " ";
  }

  /** Identifier texts joined by dashes are identifier text. */
  lemma DashJoinIsIdText(a: string, b: string)
    requires IsIdText(a) && IsIdText(b)
    ensures IsIdText(a + "-" + b)
  {
    assert IsIdText("-");
    IdTextConcat(a, "-");
    IdTextConcat(a + "-", b);
  }

  /** Concatenation regrouped around the separator after the first word. */
  lemma Regroup(a: string, b: string, z: string, d: string)
    ensures a + " " + b + "-" + z + "-" + d == a + " " + (b + "-" + z + "-" + d)
    ensures a + "-" + (b + "-" + z + "-" + d) == a + "-" + b + "-" + z + "-" + d
  {
  }

  /** The template of a two-word name: its lower-cased words separated by the
      space, then the zone and the ordinal after dashes. */
  lemma TwoWordsBase(first: string, second: string, zone: string, idx: nat)
    requires first != [] && second != [] && NoSpace(first) && NoSpace(second) && NoSpace(zone)
    ensures IdBase(first + " " + second, zone, idx)
            == ToLower(first) + " " + (ToLower(second) + "-" + ToLower(zone) + "-" + NatToDecimal(idx))
  {
    var a, b, z, d := ToLower(first), ToLower(second), ToLower(zone), NatToDecimal(idx);
    SpacedNameLower(first, second);
    TrimOfSpaceFree(zone);
    assert ToLower(Normalize(Str(zone))) == z;
    assert IntToDecimal(idx) == d;
    assert IdBase(first + " " + second, zone, idx) == (a + " " + b) + "-" + z + "-" + d;
    Regroup(a, b, z, d);
  }

  /** A name of two words separated by one space, each of them identifier
      text once lower-cased, gives the lower-cased words joined by dashes
      with the zone and the ordinal, when everything fits in 80 characters. */
  lemma MakeIdOfTwoWords(first: string, second: string, zone: string, idx: nat)
    requires first != [] && second != []
    requires IsIdText(ToLower(first)) && IsIdText(ToLower(second)) && IsIdText(ToLower(zone))
    requires |first| + |second| + |zone| + |NatToDecimal(idx)| + 3 <= MaxIdLength
    ensures MakeId(first + " " + second, zone, idx)
            == ToLower(first) + "-" + ToLower(second) + "-" + ToLower(zone) + "-" + NatToDecimal(idx)
  {
    var a, b, z, d := ToLower(first), ToLower(second), ToLower(zone), NatToDecimal(idx);
    LowerWordNoSpace(first);
    LowerWordNoSpace(second);
    LowerWordNoSpace(zone);
    TwoWordsBase(first, second, zone, idx);
    assert IsIdText(d);
    DashJoinIsIdText(b, z);
    DashJoinIsIdText(b + "-" + z, d);
    var rest := b + "-" + z + "-" + d;
    IdTextFacts(a);
    IdTextFacts(rest);
    CollapseSingleSpace(a, rest);
    DashJoinIsIdText(a, rest);
    MakeIdOfIdText(first + " " + second, zone, idx, a + "-" + rest);
    Regroup(a, b, z, d);
  }

  /** The identifier of the first row of the sample sheet. */
  lemma MakeIdExample(name: string, zone: string)
    requires name == "Sushi Ko" && zone == "Centro"
    ensures MakeId(name, zone, 1) == "sushi-ko-centro-1"
  {
    var first, second := name[..5], name[6..];
    assert name == first + " " + second;
    assert ToLower(first) == "sushi";
    assert ToLower(second) == "ko";
    assert ToLower(zone) == "centro";
    assert NatToDecimal(1) == "1";
    MakeIdOfTwoWords(first, second, zone, 1);
    SampleIdParts();
  }

  lemma SampleIdParts()
    ensures "sushi" + "-" + "ko" + "-" + "centro" + "-" + "1" == "sushi-ko-centro-1"
  {
  }

  // ---------------------------------------------------------------------------
  // parseGviz

  /** `s.indexOf(c)`: the first position of `c`, or -1. */
  function IndexOf(s: string, c: char): (r: int)
    ensures -1 <= r < |s|
    ensures r == -1 <==> c !in s
    ensures r >= 0 ==> s[r] == c && forall k :: 0 <= k < r ==> s[k] != c
  {
    if s == [] then -1
    else if s[0] == c then 0
    else
      var k := IndexOf(s[1..], c);
      assert s == [s[0]] + s[1..];
      if k == -1 then -1 else k + 1
  }

  /** `s.lastIndexOf(c)`: the last position of `c`, or -1. */
  function LastIndexOf(s: string, c: char): (r: int)
    ensures -1 <= r < |s|
    ensures r == -1 <==> c !in s
    ensures r >= 0 ==> s[r] == c && forall k :: r < k < |s| ==> s[k] != c
  {
    if s == [] then -1
    else if s[|s| - 1] == c then |s| - 1
    else
      var init := s[..|s| - 1];
      var k := LastIndexOf(init, c);
      assert s == init + [s[|s| - 1]];
      k
  }

  const PayloadNotFound := "GViz payload not found"

  /** The text `parseGviz` hands to `JSON.parse`: from the first `{` to the
      last `}`, both included, or nothing when the last `}` comes first.
      It fails exactly when either brace is missing. */
  function ParseGviz(text: string): (r: Result<string, string>)
    ensures r.Failure? <==> '{' !in text || '}' !in text
    ensures r.Failure? ==> r.error == PayloadNotFound
    ensures r.Success? && r.value != [] ==> r.value[0] == '{' && r.value[|r.value| - 1] == '}'
    ensures r.Success? && LastIndexOf(text, '}') < IndexOf(text, '{') ==> r.value == []
  {
    var start := IndexOf(text, '{');
    var end := LastIndexOf(text, '}');
    if start == -1 || end == -1 then Failure(PayloadNotFound)
    else Success(if start <= end then text[start..end + 1] else "")
  }

  /** A position holding `c` with no `c` before it is the first one. */
  lemma IndexOfIs(s: string, c: char, i: nat)
    requires i < |s| && s[i] == c
    requires forall k :: 0 <= k < i ==> s[k] != c
    ensures IndexOf(s, c) == i
  {
  }

  /** A position holding `c` with no `c` after it is the last one. */
  lemma LastIndexOfIs(s: string, c: char, i: nat)
    requires i < |s| && s[i] == c
    requires forall k :: i < k < |s| ==> s[k] != c
    ensures LastIndexOf(s, c) == i
  {
  }

  /** A non-empty cut is a piece of the text with no `{` before it and no
      `}` after it. */
  lemma ParseGvizSplits(text: string)
    requires ParseGviz(text).Success? && ParseGviz(text).value != []
    ensures var body, i := ParseGviz(text).value, IndexOf(text, '{');
            && 0 <= i && i + |body| <= |text|
            && text == text[..i] + body + text[i + |body|..]
            && (forall k :: 0 <= k < i ==> text[k] != '{')
            && (forall k :: i + |body| <= k < |text| ==> text[k] != '}')
  {
    var i, j := IndexOf(text, '{'), LastIndexOf(text, '}');
    assert ParseGviz(text).value == text[i..j + 1];
    SplitAt(text, i, j + 1);
  }

  /** Whatever wrapper surrounds the JSON object, as long as the text before
      it has no `{` and the text after it has no `}`, the object is what is cut out. */
  lemma ParseGvizUnwraps(prefix: string, body: string, suffix: string)
    requires '{' !in prefix && '}' !in suffix
    requires |body| >= 2 && body[0] == '{' && body[|body| - 1] == '}'
    ensures ParseGviz(prefix + body + suffix) == Success(body)
  {
    var text := prefix + body + suffix;
    var i, j := |prefix|, |prefix| + |body| - 1;
    forall k | 0 <= k < i ensures text[k] != '{' {
      assert text[k] == prefix[k];
    }
    forall k | j < k < |text| ensures text[k] != '}' {
      assert text[k] == suffix[k - j - 1];
    }
    IndexOfIs(text, '{', i);
    LastIndexOfIs(text, '}', j);
    assert text[i..j + 1] == body;
  }

  // ---------------------------------------------------------------------------
  // The parsed payload

  /** A column descriptor; only its `label` (here `columnLabel`) is read. */
  datatype Column = Column(columnLabel: Value)

  /** A row: `c` is its cell list, absent or `null` as `None`. A cell is
      `None` for `null` and `Some(v)` for the object `{v: v}`. */
  datatype Row = Row(c: Option<seq<Option<Value>>>)

  /** `table.cols` and `table.rows`, each absent or `null` as `None`. */
  datatype Table = Table(cols: Option<seq<Column>>, rows: Option<seq<Row>>)

  /** The object `JSON.parse` returns; `table` absent as `None`. */
  datatype Payload = Payload(table: Option<Table>)

  /** `gviz.table?.cols || []`. */
  function ColumnList(payload: Payload): seq<Column> {
    if payload.table.Some? then payload.table.value.cols.GetOr([]) else []
  }

  /** `(gviz.table?.cols || []).map(c => normalize(c.label))`: one trimmed
      label per column, in column order. */
  function Columns(payload: Payload): (cols: seq<string>)
    ensures |cols| == |ColumnList(payload)|
    ensures forall i :: 0 <= i < |cols| ==> cols[i] == Normalize(ColumnList(payload)[i].columnLabel)
    ensures forall i :: 0 <= i < |cols| ==> IsTrimmed(cols[i])
  {
    var cs := ColumnList(payload);
    seq(|cs|, i requires 0 <= i < |cs| => Normalize(cs[i].columnLabel))
  }

  /** `gviz.table?.rows || []`. */
  function Rows(payload: Payload): seq<Row> {
    if payload.table.Some? then payload.table.value.rows.GetOr([]) else []
  }

  // ---------------------------------------------------------------------------
  // colIndex

  /** Column `c` answers to `target` when both lower-case to the same text. */
  predicate Matches(c: string, target: string) {
    ToLower(c) == ToLower(target)
  }

  /** `colIndex(label)`: the first column that matches, or -1 when none does. */
  function ColIndex(cols: seq<string>, target: string): (r: int)
    ensures -1 <= r < |cols|
    ensures r == -1 <==> forall i :: 0 <= i < |cols| ==> !Matches(cols[i], target)
    ensures r >= 0 ==> Matches(cols[r], target) && forall i :: 0 <= i < r ==> !Matches(cols[i], target)
  {
    if cols == [] then -1
    else if Matches(cols[0], target) then 0
    else
      var k := ColIndex(cols[1..], target);
      if k == -1 then -1 else k + 1
  }

  /** Matching ignores case. */
  lemma ColIndexIgnoresCase()
    ensures ColIndex(["ZONA"], ZoneLabel) == 0
  {
    assert ToLower("ZONA") == ToLower(ZoneLabel);
  }

  /** Matching does not fold accents: `ZÓNA` is not `Zona`. */
  lemma ColIndexKeepsAccents()
    ensures ColIndex(["ZÓNA"], ZoneLabel) == -1
  {
    assert ToLower("ZÓNA")[1] != ToLower(ZoneLabel)[1];
  }

  /** Labels are trimmed before they are compared: a column whose label is
      the target padded with white space is found. */
  lemma ColIndexTrimsLabels(pre: string, heading: string, post: string)
    requires AllSpace(pre) && AllSpace(post) && IsTrimmed(heading)
    ensures ColIndex(Columns(Payload(Some(Table(Some([Column(Str(pre + heading + post))]), None)))), heading) == 0
  {
    var v := Str(pre + heading + post);
    TrimPadded(pre, heading, post);
    assert Normalize(v) == heading;
    assert Columns(Payload(Some(Table(Some([Column(Str(pre + heading + post))]), None))))[0] == heading;
  }

  /** Where each field of a record is read from; -1 for a missing column. */
  datatype ColumnIndices = ColumnIndices(
    name: int,
    cuisine: int,
    zone: int,
    delivery: int,
    maps: int,
    image: int)

  /** The labels the handler looks up, as the sheet spells them. */
  const NameLabel := "Nombre"
  const CuisineLabel := "Tipo"
  const ZoneLabel := "Zona"
  const DeliveryLabel := "Link delivery"
  const MapsLabel := "Link ubicación"
  const ImageLabel := "Imagen"

  /** The six lookups of the handler. */
  function ResolveColumns(cols: seq<string>): ColumnIndices {
    ColumnIndices(
      ColIndex(cols, NameLabel),
      ColIndex(cols, CuisineLabel),
      ColIndex(cols, ZoneLabel),
      ColIndex(cols, DeliveryLabel),
      ColIndex(cols, MapsLabel),
      ColIndex(cols, ImageLabel))
  }

  /** `iNombre === -1 || iTipo === -1 || iZona === -1`. */
  predicate RequiredMissing(ix: ColumnIndices) {
    ix.name == -1 || ix.cuisine == -1 || ix.zone == -1
  }

  // ---------------------------------------------------------------------------
  // Rows to records

  /** `getCell(i)`: the normalised value of cell `i`, or `""` when the column
      is unresolved, the row is too short, or the cell is `null`. */
  function GetCell(cells: seq<Option<Value>>, i: int): (r: string)
    ensures IsTrimmed(r)
    ensures !(0 <= i < |cells|) ==> r == ""
    ensures 0 <= i < |cells| && cells[i].None? ==> r == ""
    ensures 0 <= i < |cells| && cells[i].Some? ==> r == Normalize(cells[i].value)
  {
    if 0 <= i < |cells| && cells[i].Some? then Normalize(cells[i].value) else ""
  }

  /** What the loop body makes of the row at raw position `ordinal - 1`:
      nothing when its name, cuisine or zone is empty, otherwise a record
      whose identifier is built from that name, zone and ordinal. */
  function RowRecord(row: Row, ix: ColumnIndices, ordinal: int): (r: Option<Restaurant>)
    ensures var cells := row.c.GetOr([]);
            r.None? <==> GetCell(cells, ix.name) == "" || GetCell(cells, ix.cuisine) == ""
                         || GetCell(cells, ix.zone) == ""
    ensures r.Some? ==> var cells := row.c.GetOr([]);
                        && r.value.name == GetCell(cells, ix.name)
                        && r.value.cuisine == GetCell(cells, ix.cuisine)
                        && r.value.zone == GetCell(cells, ix.zone)
                        && r.value.deliveryUrl == GetCell(cells, ix.delivery)
                        && r.value.mapsUrl == GetCell(cells, ix.maps)
                        && r.value.image == GetCell(cells, ix.image)
    ensures r.Some? ==> && r.value.name != "" && IsTrimmed(r.value.name)
                        && r.value.cuisine != "" && IsTrimmed(r.value.cuisine)
                        && r.value.zone != "" && IsTrimmed(r.value.zone)
                        && r.value.id == MakeId(r.value.name, r.value.zone, ordinal)
  {
    var cells := row.c.GetOr([]);
    var name := GetCell(cells, ix.name);
    var cuisine := GetCell(cells, ix.cuisine);
    var zone := GetCell(cells, ix.zone);
    if name == "" || cuisine == "" || zone == "" then None
    else
      Some(Restaurant(MakeId(name, zone, ordinal), name, cuisine, zone,
                      GetCell(cells, ix.delivery), GetCell(cells, ix.maps), GetCell(cells, ix.image)))
  }

  /** What the loop body makes of each row, in row order; the row at raw
      position `i` is numbered `i + 1`. */
  function RowResults(rows: seq<Row>, ix: ColumnIndices): (r: seq<Option<Restaurant>>)
    ensures |r| == |rows|
    ensures forall i :: 0 <= i < |rows| ==> r[i] == RowRecord(rows[i], ix, i + 1)
  {
    seq(|rows|, i requires 0 <= i < |rows| => RowRecord(rows[i], ix, i + 1))
  }

  /** The `restaurants` array the loop builds. */
  function MapRows(rows: seq<Row>, ix: ColumnIndices): seq<Restaurant> {
    Somes(RowResults(rows, ix))
  }

  /** The raw row positions the records come from, in the same order. */
  function Origins(rows: seq<Row>, ix: ColumnIndices): seq<nat> {
    SomeIndices(RowResults(rows, ix))
  }

  /** The k-th record is the one made from row `Origins[k]`, numbered with that
      raw position plus one; positions increase, so input order is kept; a row
      is left out exactly when its name, cuisine or zone is empty; there are
      never more records than rows. */
  lemma MapRowsOrigins(rows: seq<Row>, ix: ColumnIndices)
    ensures |Origins(rows, ix)| == |MapRows(rows, ix)| <= |rows|
    ensures forall k :: 0 <= k < |Origins(rows, ix)| ==>
              Origins(rows, ix)[k] < |rows|
              && RowRecord(rows[Origins(rows, ix)[k]], ix, Origins(rows, ix)[k] + 1) == Some(MapRows(rows, ix)[k])
    ensures forall k, l :: 0 <= k < l < |Origins(rows, ix)| ==> Origins(rows, ix)[k] < Origins(rows, ix)[l]
    ensures forall j :: 0 <= j < |rows| ==> (RowRecord(rows[j], ix, j + 1).Some? <==> j in Origins(rows, ix))
  {
    SomesOrigins(RowResults(rows, ix));
  }

  /** Every record has a non-empty, trimmed name, cuisine and zone, and an
      identifier built from them and the raw position of its row. */
  lemma MapRowsWellFormed(rows: seq<Row>, ix: ColumnIndices)
    ensures |Origins(rows, ix)| == |MapRows(rows, ix)|
    ensures forall k :: 0 <= k < |Origins(rows, ix)| ==>
              var r, cells := MapRows(rows, ix)[k], rows[Origins(rows, ix)[k]].c.GetOr([]);
              && r.name == GetCell(cells, ix.name)
              && r.cuisine == GetCell(cells, ix.cuisine)
              && r.zone == GetCell(cells, ix.zone)
              && r.name != "" && IsTrimmed(r.name)
              && r.cuisine != "" && IsTrimmed(r.cuisine)
              && r.zone != "" && IsTrimmed(r.zone)
              && r.id == MakeId(r.name, r.zone, Origins(rows, ix)[k] + 1)
  {
    MapRowsOrigins(rows, ix);
  }

  /** An unresolved optional column leaves that field empty in every record. */
  lemma UnresolvedOptionalColumns(rows: seq<Row>, ix: ColumnIndices)
    ensures ix.delivery < 0 ==> forall k :: 0 <= k < |MapRows(rows, ix)| ==> MapRows(rows, ix)[k].deliveryUrl == ""
    ensures ix.maps < 0 ==> forall k :: 0 <= k < |MapRows(rows, ix)| ==> MapRows(rows, ix)[k].mapsUrl == ""
    ensures ix.image < 0 ==> forall k :: 0 <= k < |MapRows(rows, ix)| ==> MapRows(rows, ix)[k].image == ""
  {
    MapRowsOrigins(rows, ix);
  }

  /** Replacing row `j` by a row that is skipped removes that row's record, if
      it had one, and leaves every other record, identifier included, as it was. */
  lemma SkippedRowKeepsOthers(rows: seq<Row>, ix: ColumnIndices, j: nat, blank: Row)
    requires j < |rows|
    requires RowRecord(blank, ix, j + 1).None?
    ensures var results := RowResults(rows, ix);
            && MapRows(rows, ix) == Somes(results[..j]) + Emit(results[j]) + Somes(results[j + 1..])
            && MapRows(rows[j := blank], ix) == Somes(results[..j]) + Somes(results[j + 1..])
  {
    var results := RowResults(rows, ix);
    assert RowResults(rows[j := blank], ix) == results[j := None];
    SomesSplit(results, j);
    SomesClear(results, j);
  }

  // ---------------------------------------------------------------------------
  // Responses

  /** The handler's answers; the body of each is what `JSON.stringify` receives. */
  datatype Response =
    | MissingSheetId
    | FetchFailed(status: int)
    | Unexpected(details: string)
    | MissingColumns(detectedColumns: seq<string>)
    | Listed(source: string, count: nat, restaurants: seq<Restaurant>)
  {
    function StatusCode(): int {
      if Listed? then 200 else if FetchFailed? then 502 else 500
    }

    /** The `error` text of the body; a listing has none. */
    function Error(): Option<string> {
      match this
      case MissingSheetId => Some("Missing GSHEET_ID env var")
      case FetchFailed(_) => Some("Failed to fetch Google Sheet")
      case Unexpected(_) => Some("Unexpected error")
      case MissingColumns(_) => Some("Missing required columns. Need: Nombre, Tipo, Zona")
      case Listed(_, _, _) => None
    }

    /** Only a listing may be cached. */
    function CacheControl(): Option<string> {
      if Listed? then Some("public, max-age=60") else None
    }
  }

  /** The answer for a parsed payload, as lines 57-120 of the handler compute it. */
  function Listing(payload: Payload): Response {
    var cols := Columns(payload);
    var ix := ResolveColumns(cols);
    if RequiredMissing(ix) then MissingColumns(cols)
    else
      var restaurants := MapRows(Rows(payload), ix);
      Listed("gsheets", |restaurants|, restaurants)
  }

  /** The rows of a payload play no part in the columns it detects. */
  lemma ColumnsIgnoreRows(payload: Payload, rows: seq<Row>)
    requires payload.table.Some?
    ensures Columns(Payload(Some(payload.table.value.(rows := Some(rows))))) == Columns(payload)
  {
  }

  /** A missing `Nombre`, `Tipo` or `Zona` column gives a 500 that lists the
      detected columns and carries no cache header. */
  lemma ListingOfMissing(payload: Payload)
    requires RequiredMissing(ResolveColumns(Columns(payload)))
    ensures Listing(payload) == MissingColumns(Columns(payload))
    ensures Listing(payload).StatusCode() == 500
    ensures Listing(payload).CacheControl().None?
  {
  }

  /** The missing-column answer is given whatever the rows are, none
      included: the rows are never looked at. */
  lemma MissingColumnsIgnoreRows(payload: Payload, rows: seq<Row>)
    requires payload.table.Some?
    requires RequiredMissing(ResolveColumns(Columns(payload)))
    ensures Listing(Payload(Some(payload.table.value.(rows := Some(rows))))) == Listing(payload)
  {
    ColumnsIgnoreRows(payload, rows);
    ListingOfMissing(payload);
    ListingOfMissing(Payload(Some(payload.table.value.(rows := Some(rows)))));
  }

  /** With the three required columns present the answer is a cacheable 200
      whose `count` is the number of records, zero included. */
  lemma ListingSucceeds(payload: Payload)
    requires !RequiredMissing(ResolveColumns(Columns(payload)))
    ensures Listing(payload).StatusCode() == 200
    ensures Listing(payload).CacheControl() == Some("public, max-age=60")
    ensures Listing(payload).source == "gsheets"
    ensures Listing(payload).restaurants == MapRows(Rows(payload), ResolveColumns(Columns(payload)))
    ensures Listing(payload).count == |Listing(payload).restaurants| <= |Rows(payload)|
    ensures Rows(payload) == [] ==> Listing(payload).restaurants == []
  {
  }

  /** One more row adds nothing when its name, cuisine or zone is empty, and
      otherwise the record built from its cells. */
  lemma MapRowsStep(rows: seq<Row>, ix: ColumnIndices, idx: nat)
    requires idx < |rows|
    ensures var cells := rows[idx].c.GetOr([]);
            var name, cuisine, zone := GetCell(cells, ix.name), GetCell(cells, ix.cuisine), GetCell(cells, ix.zone);
            Somes(RowResults(rows, ix)[..idx + 1]) == Somes(RowResults(rows, ix)[..idx]) +
              if name == "" || cuisine == "" || zone == "" then []
              else [Restaurant(MakeId(name, zone, idx + 1), name, cuisine, zone,
                               GetCell(cells, ix.delivery), GetCell(cells, ix.maps), GetCell(cells, ix.image))]
  {
    SomesSnoc(RowResults(rows, ix), idx);
  }

  /** The row loop of the handler: it pushes a record for each row whose name,
      cuisine and zone are not empty, numbered with the row's raw position. */
  method CollectRestaurants(rows: seq<Row>, ix: ColumnIndices) returns (restaurants: seq<Restaurant>)
    ensures restaurants == MapRows(rows, ix)
  {
    restaurants := [];
    for idx := 0 to |rows|
      invariant restaurants == Somes(RowResults(rows, ix)[..idx])
    {
      var cells := rows[idx].c.GetOr([]);
      var name := GetCell(cells, ix.name);
      var cuisine := GetCell(cells, ix.cuisine);
      var zone := GetCell(cells, ix.zone);
      if name == "" || cuisine == "" || zone == "" {
        assert restaurants == Somes(RowResults(rows, ix)[..idx + 1]) by {
          MapRowsStep(rows, ix, idx);
        }
        continue;
      }
      var deliveryUrl := GetCell(cells, ix.delivery);
      var mapsUrl := GetCell(cells, ix.maps);
      var image := GetCell(cells, ix.image);
      var restaurant := Restaurant(MakeId(name, zone, idx + 1), name, cuisine, zone, deliveryUrl, mapsUrl, image);
      assert restaurants + [restaurant] == Somes(RowResults(rows, ix)[..idx + 1]) by {
        MapRowsStep(rows, ix, idx);
      }
      restaurants := restaurants + [restaurant];
    }
    assert RowResults(rows, ix)[..|rows|] == RowResults(rows, ix);
  }

  /** Lines 57-120: resolve the columns, check the required ones, run the loop, answer. */
  method BuildResponse(payload: Payload) returns (resp: Response)
    ensures resp == Listing(payload)
  {
    var cols := Columns(payload);
    var rows := Rows(payload);
    var ix := ResolveColumns(cols);
    if ix.name == -1 || ix.cuisine == -1 || ix.zone == -1 {
      return MissingColumns(cols);
    }
    var restaurants := CollectRestaurants(rows, ix);
    resp := Listed("gsheets", |restaurants|, restaurants);
  }

  /** The environment the handler reads. */
  datatype SheetEnv = SheetEnv(sheetId: Option<string>, sheetName: Option<string>)

  /** `process.env.GSHEET_NAME || "Sheet1"`. */
  function SheetName(env: SheetEnv): (r: string)
    ensures IsSet(env.sheetName) ==> r == env.sheetName.value
    ensures !IsSet(env.sheetName) ==> r == "Sheet1"
    ensures r != ""
  {
    if IsSet(env.sheetName) then env.sheetName.value else "Sheet1"
  }

  /** What the fetch returned: `res.ok`, `res.status` and the body text. */
  datatype Upstream = Upstream(ok: bool, status: int, text: string)

  /** The whole handler, with the fetch's outcome and `JSON.parse` as
      parameters (`Failure` carries the message of the error it throws): a
      missing sheet id, a failed fetch, a payload without braces and a
      payload that does not parse stop it before the columns are looked at. */
  method Handler(env: SheetEnv, upstream: Upstream, jsonParse: string -> Result<Payload, string>)
    returns (resp: Response)
    ensures !IsSet(env.sheetId) ==> resp == MissingSheetId
    ensures IsSet(env.sheetId) && !upstream.ok ==> resp == FetchFailed(upstream.status)
    ensures IsSet(env.sheetId) && upstream.ok && ('{' !in upstream.text || '}' !in upstream.text) ==>
              resp == Unexpected(PayloadNotFound)
    ensures IsSet(env.sheetId) && upstream.ok && ParseGviz(upstream.text).Success? ==>
              var parsed := jsonParse(ParseGviz(upstream.text).value);
              && (parsed.Failure? ==> resp == Unexpected(parsed.error))
              && (parsed.Success? ==> resp == Listing(parsed.value))
  {
    if !IsSet(env.sheetId) {
      return MissingSheetId;
    }
    if !upstream.ok {
      return FetchFailed(upstream.status);
    }
    var json := ParseGviz(upstream.text);
    if json.Failure? {
      return Unexpected(json.error);
    }
    var parsed := jsonParse(json.value);
    if parsed.Failure? {
      return Unexpected(parsed.error);
    }
    resp := BuildResponse(parsed.value);
  }
}
