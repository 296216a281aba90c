/**
 * The title path of the listing script up to the unit pattern: the title is
 * lower-cased, split on commas, and its second field is trimmed.
 */
module TitleText {
  import opened Wrappers
  import opened Chars

  /** `split(',')`: the fields between commas, in order; `""` splits into one empty field. */
  function Split(s: string): (parts: seq<string>)
    ensures |parts| == CommaCount(s) + 1
    decreases |s|
  {
    if s == [] then [""]
    else
      var rest := Split(s[1..]);
      if s[0] == ',' then [""] + rest
      else [[s[0]] + rest[0]] + rest[1..]
  }

  /** The number of commas in the text. */
  function CommaCount(s: string): nat
    decreases |s|
  {
    if s == [] then 0 else (if s[0] == ',' then 1 else 0) + CommaCount(s[1..])
  }

  /** The count is the number of occurrences of the comma. */
  lemma {:induction false} CommaCountIsMultiplicity(s: string)
    ensures CommaCount(s) == multiset(s)[',']
    decreases |s|
  {
    if s != [] {
      CommaCountIsMultiplicity(s[1..]);
      assert s == [s[0]] + s[1..];
    }
  }

  /** `join(',')`. */
  function Join(parts: seq<string>): string
    requires |parts| >= 1
    decreases |parts|
  {
    if |parts| == 1 then parts[0] else parts[0] + "," + Join(parts[1..])
  }

  /** Joining the fields back with commas gives the text that was split. */
  lemma {:induction false} SplitJoin(s: string)
    ensures Join(Split(s)) == s
    decreases |s|
  {
    if s != [] {
      SplitJoin(s[1..]);
      var rest := Split(s[1..]);
      if s[0] == ',' {
        assert ([""] + rest)[1..] == rest;
      } else if |rest| > 1 {
        var parts := [[s[0]] + rest[0]] + rest[1..];
        assert parts[1..] == rest[1..];
        assert Join(parts) == [s[0]] + (rest[0] + "," + Join(rest[1..]));
      }
      assert s == [s[0]] + s[1..];
    }
  }

  /** No field holds a comma. */
  lemma {:induction false} SplitFieldsHaveNoComma(s: string)
    ensures forall i :: 0 <= i < |Split(s)| ==> ',' !in Split(s)[i]
    decreases |s|
  {
    if s != [] {
      SplitFieldsHaveNoComma(s[1..]);
      var rest := Split(s[1..]);
      if s[0] != ',' {
        assert ',' !in rest[0];
        assert ',' !in [s[0]] + rest[0];
      }
    }
  }

  /** Text without a comma is a single field. */
  lemma {:induction false} SplitNoComma(s: string)
    requires ',' !in s
    ensures Split(s) == [s]
    decreases |s|
  {
    if s != [] {
      assert s[0] != ',';
      assert ',' !in s[1..];
      SplitNoComma(s[1..]);
      assert s == [s[0]] + s[1..];
    }
  }

  /** A leading comma-free field followed by a comma is split off whole. */
  lemma {:induction false} SplitAfterField(p: string, t: string)
    requires ',' !in p
    ensures Split(p + "," + t) == [p] + Split(t)
    decreases |p|
  {
    if p == [] {
      assert p + "," + t == [','] + t;
      assert ([','] + t)[1..] == t;
    } else {
      assert ',' !in p[1..];
      SplitAfterField(p[1..], t);
      assert (p + "," + t)[1..] == p[1..] + "," + t;
      assert p == [p[0]] + p[1..];
    }
  }

  /** Splitting undoes joining comma-free fields. */
  lemma {:induction false} JoinSplit(parts: seq<string>)
    requires |parts| >= 1
    requires forall i :: 0 <= i < |parts| ==> ',' !in parts[i]
    ensures Split(Join(parts)) == parts
    decreases |parts|
  {
    if |parts| == 1 {
      SplitNoComma(parts[0]);
    } else {
      JoinSplit(parts[1..]);
      SplitAfterField(parts[0], Join(parts[1..]));
      assert [parts[0]] + parts[1..] == parts;
    }
  }

  /** There is a second field exactly when the text holds a comma. */
  lemma {:induction false} SplitHasSecondField(s: string)
    ensures |Split(s)| >= 2 <==> ',' in s
    decreases |s|
  {
    if s != [] {
      SplitHasSecondField(s[1..]);
      assert s == [s[0]] + s[1..];
    }
  }

  /** Leading white space removed. */
  function TrimStart(s: string): (r: string)
    ensures |r| <= |s| && r == s[|s| - |r|..]
    ensures r == [] || !IsSpace(r[0])
    ensures AllSpace(s[..|s| - |r|])
    decreases |s|
  {
    if s != [] && IsSpace(s[0]) then TrimStart(s[1..]) else s
  }

  /** Trailing white space removed. */
  function TrimEnd(s: string): (r: string)
    ensures |r| <= |s| && r == s[..|r|]
    ensures r == [] || !IsSpace(r[|r| - 1])
    ensures AllSpace(s[|r|..])
    decreases |s|
  {
    if s != [] && IsSpace(s[|s| - 1]) then TrimEnd(s[..|s| - 1]) else s
  }

  /** `r` is `s` with the all-white-space runs `s[..i]` and `s[i + |r|..]` removed. */
  ghost predicate TrimmedAt(s: string, i: nat, r: string) {
    i + |r| <= |s| && r == s[i..i + |r|] && AllSpace(s[..i]) && AllSpace(s[i + |r|..])
  }

  /**
   * `String.prototype.trim`: the text between the leading and the trailing
   * run of white space, which neither starts nor ends with white space.
   */
  function Trim(s: string): (r: string)
    ensures r == [] || (!IsSpace(r[0]) && !IsSpace(r[|r| - 1]))
    ensures exists i: nat :: TrimmedAt(s, i, r)
  {
    var t := TrimStart(s);
    var i := |s| - |t|;
    assert t == s[i..];
    TrimEndOfSuffix(s, i);
    assert TrimmedAt(s, i, TrimEnd(t));
    TrimEnd(t)
  }

  /** Trimming the end of `s[i..]` after white space `s[..i]` leaves `s` trimmed at `i`. */
  lemma TrimEndOfSuffix(s: string, i: nat)
    requires i <= |s| && AllSpace(s[..i])
    ensures TrimmedAt(s, i, TrimEnd(s[i..]))
  {
    var t := s[i..];
    var r := TrimEnd(t);
    assert r == t[..|r|] == s[i..i + |r|];
    assert t[|r|..] == s[i + |r|..];
  }

  /** Trimming trimmed text changes nothing. */
  lemma TrimIdempotent(s: string)
    ensures Trim(Trim(s)) == Trim(s)
  {
  }

  /** `toLowerCase` neither creates nor removes commas. */
  lemma LowerKeepsCommas(s: string)
    ensures forall i :: 0 <= i < |s| ==> (Lower(s)[i] == ',' <==> s[i] == ',')
    ensures ',' in Lower(s) <==> ',' in s
  {
    var l := Lower(s);
    if ',' in s {
      var i :| 0 <= i < |s| && s[i] == ',';
      assert l[i] == ',';
    }
    if ',' in l {
      var i :| 0 <= i < |l| && l[i] == ',';
      assert s[i] == ',';
    }
  }

  /**
   * The title has no second field: `split(',')[1]` is `undefined`, and
   * calling `trim` on it throws a `TypeError`.
   */
  datatype TitleError = NoSecondField

  /**
   * When the text holds a comma, its second field is the comma-free text
   * after the first comma, up to the next comma or the end.
   */
  lemma SecondField(s: string)
    requires ',' in s
    ensures |Split(s)| >= 2
    ensures s == Split(s)[0] + "," + Split(s)[1] + AfterSecondField(Split(s))
    ensures ',' !in Split(s)[0] && ',' !in Split(s)[1]
    ensures IsSecondField(s, Split(s)[1])
  {
    var parts := Split(s);
    SplitHasSecondField(s);
    SplitJoin(s);
    SplitFieldsHaveNoComma(s);
    var tail := AfterSecondField(parts);
    assert Join(parts[1..]) == parts[1] + tail by {
      assert parts[1..][1..] == parts[2..];
    }
    assert s == parts[0] + "," + parts[1] + tail;
    SecondFieldFrom(s, parts[0], parts[1], tail);
  }

  /**
   * `s[i]` is the first comma of `s` and `s[j]` the next comma, or `j` is the
   * end of `s`: the second field lies strictly between them.
   */
  ghost predicate SecondFieldBounds(s: string, i: nat, j: nat) {
    && i < j <= |s|
    && s[i] == ','
    && (forall k :: 0 <= k < i ==> s[k] != ',')
    && (forall k :: i < k < j ==> s[k] != ',')
    && (j == |s| || s[j] == ',')
  }

  /**
   * `field` is the second comma-separated field of `s`: the text between the
   * first comma and the next comma or the end.
   */
  ghost predicate IsSecondField(s: string, field: string) {
    exists i: nat, j: nat :: SecondFieldBounds(s, i, j) && field == s[i + 1..j]
  }

  /** A comma-free head, a comma, a comma-free field and an end or a comma make `field` the second field. */
  lemma SecondFieldFrom(s: string, head: string, field: string, tail: string)
    requires s == head + "," + field + tail
    requires ',' !in head && ',' !in field && (tail == [] || tail[0] == ',')
    ensures IsSecondField(s, field)
  {
    var i, j := |head|, |head| + 1 + |field|;
    assert forall k :: 0 <= k < i ==> s[k] == head[k];
    assert forall k :: i < k < j ==> s[k] == field[k - i - 1];
    assert j < |s| ==> s[j] == tail[0];
    assert field == s[i + 1..j];
    assert SecondFieldBounds(s, i, j);
  }

  /** The bounds of the second field are determined by the text. */
  lemma SecondFieldBoundsUnique(s: string, i1: nat, j1: nat, i2: nat, j2: nat)
    requires SecondFieldBounds(s, i1, j1) && SecondFieldBounds(s, i2, j2)
    ensures i1 == i2 && j1 == j2
  {
    if i1 < i2 || i2 < i1 {
      assert false;
    }
    if j1 < j2 || j2 < j1 {
      assert false;
    }
  }

  /** The second field, when there is one, is determined by the text. */
  lemma SecondFieldUnique(s: string, f1: string, f2: string)
    requires IsSecondField(s, f1) && IsSecondField(s, f2)
    ensures f1 == f2
  {
    var i1: nat, j1: nat :| SecondFieldBounds(s, i1, j1) && f1 == s[i1 + 1..j1];
    var i2: nat, j2: nat :| SecondFieldBounds(s, i2, j2) && f2 == s[i2 + 1..j2];
    SecondFieldBoundsUnique(s, i1, j1, i2, j2);
  }

  /** The commas and fields that follow the second field, if any. */
  function AfterSecondField(parts: seq<string>): (tail: string)
    requires |parts| >= 2
    ensures tail == [] || tail[0] == ','
  {
    if |parts| == 2 then "" else "," + Join(parts[2..])
  }

  lemma SliceKeepsNoUpper(s: string, i: nat, j: nat)
    requires i <= j <= |s| && NoAsciiUpper(s)
    ensures NoAsciiUpper(s[i..j])
  {
  }

  lemma TrimKeepsNoUpper(s: string)
    requires NoAsciiUpper(s)
    ensures NoAsciiUpper(Trim(s))
  {
    var r := Trim(s);
    var i: nat :| TrimmedAt(s, i, r);
    SliceKeepsNoUpper(s, i, i + |r|);
  }

  /**
   * The text the unit pattern is matched against:
   * `title.toLowerCase().split(',')[1].trim()`.
   */
  function UnitSegment(title: string): (r: Result<string, TitleError>)
    ensures r.Err? <==> ',' !in title
    ensures r.Ok? ==> NoAsciiUpper(r.value)
    ensures r.Ok? ==> exists field :: IsSecondField(Lower(title), field) && r.value == Trim(field)
  {
    var lowered := Lower(title);
    LowerKeepsCommas(title);
    if ',' !in lowered then Err(NoSecondField)
    else
      SecondField(lowered);
      var head, field := Split(lowered)[0], Split(lowered)[1];
      SliceKeepsNoUpper(lowered, |head| + 1, |head| + 1 + |field|);
      assert field == lowered[|head| + 1..|head| + 1 + |field|];
      TrimKeepsNoUpper(field);
      Ok(Trim(field))
  }

  lemma LowerExample()
    ensures Lower("Eggs, 12 CT") == "eggs, 12 ct"
  {
    var l := Lower("Eggs, 12 CT");
    assert |l| == 11;
    forall i | 0 <= i < 11
      ensures l[i] == "eggs, 12 ct"[i]
    {
      assert l[i] == ToLower("Eggs, 12 CT"[i]);
    }
  }

  lemma TrimStartExample()
    ensures TrimStart(" 12 ct") == "12 ct"
  {
    assert " 12 ct"[1..] == "12 ct";
    assert TrimStart(" 12 ct") == TrimStart("12 ct");
  }

  lemma TrimEndExample()
    ensures TrimEnd("12 ct") == "12 ct"
  {
  }

  lemma TrimExample()
    ensures Trim(" 12 ct") == "12 ct"
  {
    TrimStartExample();
    TrimEndExample();
  }

  /** `Eggs, 12 CT` is matched on `12 ct`. */
  lemma ExampleUnitSegment()
    ensures UnitSegment("Eggs, 12 CT") == Ok("12 ct")
  {
    var t := "Eggs, 12 CT";
    var lowered := Lower(t);
    LowerExample();
    var head, field, tail := "eggs", " 12 ct", "";
    assert lowered == head + "," + field + tail;
    SecondFieldFrom(lowered, head, field, tail);
    var f :| IsSecondField(lowered, f) && UnitSegment(t).value == Trim(f);
    SecondFieldUnique(lowered, f, field);
    TrimExample();
  }
}
