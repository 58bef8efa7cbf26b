/**
  The few java.lang.String operations the notification handler relies on,
  over `string` (a `seq<char>`):
  - `s.split(regex)` for a one-character separator, with Java's limit-0 rules
    (a string without the separator splits into itself; trailing empty fields
    are discarded; a leading empty field is kept);
  - `s.replaceAll(" ", "")`, i.e. removal of every occurrence of one character;
  - joining fields back with the separator, the inverse used in the lemmas.
 */
module JavaText {

  /** The fields joined back together with `sep` between consecutive ones. */
  function Join(parts: seq<string>, sep: char): string
  {
    if |parts| == 0 then ""
    else if |parts| == 1 then parts[0]
    else parts[0] + [sep] + Join(parts[1..], sep)
  }

  /** `s` with every occurrence of `ch` deleted; the other characters keep their order. */
  function RemoveAll(s: string, ch: char): (r: string)
    ensures ch !in r
    ensures forall x :: x in r ==> x in s
    ensures ch !in s ==> r == s
  {
    if |s| == 0 then ""
    else if s[0] == ch then RemoveAll(s[1..], ch)
    else
      assert s == [s[0]] + s[1..];
      [s[0]] + RemoveAll(s[1..], ch)
  }

  /** Removal deletes every occurrence of `ch` and keeps every other character, with its count. */
  lemma {:induction false} RemoveAllCounts(s: string, ch: char)
    ensures multiset(RemoveAll(s, ch)) == multiset(s)[ch := 0]
  {
    if |s| > 0 {
      RemoveAllCounts(s[1..], ch);
      assert s == [s[0]] + s[1..];
      assert multiset(s) == multiset{s[0]} + multiset(s[1..]);
    }
  }

  /** Every field of `s` between occurrences of `sep`, empty fields included. */
  function Fields(s: string, sep: char): (parts: seq<string>)
    ensures |parts| >= 1
    ensures forall i :: 0 <= i < |parts| ==> sep !in parts[i]
    ensures forall i, x :: 0 <= i < |parts| && x in parts[i] ==> x in s
  {
    if |s| == 0 then [""]
    else
      var rest := Fields(s[1..], sep);
      assert forall x :: x in s[1..] ==> x in s;
      if s[0] == sep then [""] + rest
      else [[s[0]] + rest[0]] + rest[1..]
  }

  /** The longest prefix of `parts` whose last field, if any, is not empty. */
  function DropTrailingEmpty(parts: seq<string>): (r: seq<string>)
    ensures |r| <= |parts| && r == parts[..|r|]
    ensures |r| > 0 ==> r[|r| - 1] != ""
    ensures forall i :: |r| <= i < |parts| ==> parts[i] == ""
  {
    if |parts| > 0 && parts[|parts| - 1] == "" then DropTrailingEmpty(parts[..|parts| - 1])
    else parts
  }

  /** The longest prefix of `s` that does not end with `ch`. */
  function DropTrailing(s: string, ch: char): (r: string)
    ensures |r| <= |s| && r == s[..|r|]
    ensures |r| > 0 ==> r[|r| - 1] != ch
    ensures forall i :: |r| <= i < |s| ==> s[i] == ch
  {
    if |s| > 0 && s[|s| - 1] == ch then DropTrailing(s[..|s| - 1], ch)
    else s
  }

  /**
    `s.split(sep)` with the default limit 0. Every field is free of the
    separator, and joining the fields gives `s` back except for the trailing
    separators whose empty fields were discarded.
   */
  function Split(s: string, sep: char): (parts: seq<string>)
    ensures forall i :: 0 <= i < |parts| ==> sep !in parts[i]
    ensures forall i, x :: 0 <= i < |parts| && x in parts[i] ==> x in s
    ensures sep !in s ==> parts == [s]
    ensures sep in s && |parts| > 0 ==> parts[|parts| - 1] != ""
    ensures Join(parts, sep) == DropTrailing(s, sep)
  {
    if sep !in s then
      DropTrailingNoop(s, sep);
      [s]
    else
      var fields := Fields(s, sep);
      FieldsJoin(s, sep);
      JoinDropTrailing(fields, sep);
      DropTrailingEmpty(fields)
  }

  lemma DropTrailingNoop(s: string, ch: char)
    requires ch !in s
    ensures DropTrailing(s, ch) == s
  {
  }

  /** Joining the fields of `s` rebuilds `s` exactly. */
  lemma {:induction false} FieldsJoin(s: string, sep: char)
    ensures Join(Fields(s, sep), sep) == s
  {
    if |s| > 0 {
      var rest := Fields(s[1..], sep);
      FieldsJoin(s[1..], sep);
      if s[0] == sep {
        assert Fields(s, sep) == [""] + rest;
        assert ([""] + rest)[1..] == rest;
        assert s == [sep] + s[1..];
      } else if |rest| == 1 {
        assert Fields(s, sep) == [[s[0]] + rest[0]];
        assert s == [s[0]] + s[1..];
      } else {
        var parts := [[s[0]] + rest[0]] + rest[1..];
        assert Fields(s, sep) == parts;
        assert parts[1..] == rest[1..];
        assert Join(rest, sep) == rest[0] + [sep] + Join(rest[1..], sep);
        assert s == [s[0]] + s[1..];
      }
    }
  }

  /** Join on a sequence of two or more fields, peeling off the last one. */
  lemma {:induction false} JoinSnoc(parts: seq<string>, sep: char)
    requires |parts| >= 2
    ensures Join(parts, sep) == Join(parts[..|parts| - 1], sep) + [sep] + parts[|parts| - 1]
  {
    if |parts| > 2 {
      JoinSnoc(parts[1..], sep);
      assert parts[1..][..|parts| - 2] == parts[..|parts| - 1][1..];
    }
  }

  /** Discarding trailing empty fields removes exactly the trailing separators of the join. */
  lemma {:induction false} JoinDropTrailing(parts: seq<string>, sep: char)
    requires forall i :: 0 <= i < |parts| ==> sep !in parts[i]
    ensures Join(DropTrailingEmpty(parts), sep) == DropTrailing(Join(parts, sep), sep)
  {
    if |parts| == 0 {
    } else if parts[|parts| - 1] == "" {
      var init := parts[..|parts| - 1];
      JoinDropTrailing(init, sep);
      if |parts| >= 2 {
        JoinSnoc(parts, sep);
        var j := Join(init, sep) + [sep];
        assert Join(parts, sep) == j;
        assert j[..|j| - 1] == Join(init, sep);
      }
    } else {
      var last := parts[|parts| - 1];
      assert last[|last| - 1] in last;
      var j := Join(parts, sep);
      if |parts| >= 2 {
        JoinSnoc(parts, sep);
      }
      assert j[|j| - 1] == last[|last| - 1];
    }
  }

  /** A field free of the separator, followed by the separator, splits off as one field. */
  lemma {:induction false} FieldsCons(a: string, b: string, sep: char)
    requires sep !in a
    ensures Fields(a + [sep] + b, sep) == [a] + Fields(b, sep)
  {
    var s := a + [sep] + b;
    if |a| == 0 {
      assert s[1..] == b;
    } else {
      assert s[1..] == a[1..] + [sep] + b;
      FieldsCons(a[1..], b, sep);
      assert [a[0]] + a[1..] == a;
    }
  }

  /** A string free of the separator is a single field. */
  lemma {:induction false} FieldsSingle(a: string, sep: char)
    requires sep !in a
    ensures Fields(a, sep) == [a]
  {
    if |a| > 0 {
      FieldsSingle(a[1..], sep);
      assert [a[0]] + a[1..] == a;
    }
  }

  /** Splitting the join of separator-free fields recovers those fields. */
  lemma {:induction false} FieldsOfJoin(parts: seq<string>, sep: char)
    requires |parts| >= 1
    requires forall i :: 0 <= i < |parts| ==> sep !in parts[i]
    ensures Fields(Join(parts, sep), sep) == parts
  {
    if |parts| == 1 {
      FieldsSingle(parts[0], sep);
    } else {
      FieldsOfJoin(parts[1..], sep);
      FieldsCons(parts[0], Join(parts[1..], sep), sep);
      assert [parts[0]] + parts[1..] == parts;
    }
  }

  /**
    `Split` inverts `Join` on separator-free fields, provided the last field is
    not an empty one that Java's split would discard.
   */
  lemma SplitJoin(parts: seq<string>, sep: char)
    requires |parts| >= 1
    requires forall i :: 0 <= i < |parts| ==> sep !in parts[i]
    requires |parts| == 1 || parts[|parts| - 1] != ""
    ensures Split(Join(parts, sep), sep) == parts
  {
    var s := Join(parts, sep);
    if |parts| >= 2 {
      assert s == parts[0] + [sep] + Join(parts[1..], sep);
      assert s[|parts[0]|] == sep;
      FieldsOfJoin(parts, sep);
    }
  }

  /** Removal distributes over concatenation, so the kept characters stay in order. */
  lemma {:induction false} RemoveAllAppend(a: string, b: string, ch: char)
    ensures RemoveAll(a + b, ch) == RemoveAll(a, ch) + RemoveAll(b, ch)
  {
    if |a| == 0 {
      assert a + b == b;
    } else {
      var ab := a + b;
      assert ab[0] == a[0] && ab[1..] == a[1..] + b;
      RemoveAllAppend(a[1..], b, ch);
      var kept := if a[0] == ch then [] else [a[0]];
      var x, y := RemoveAll(a[1..], ch), RemoveAll(b, ch);
      calc {
        RemoveAll(ab, ch);
        kept + RemoveAll(a[1..] + b, ch);
        kept + (x + y);
        { assert kept + (x + y) == (kept + x) + y; }
        (kept + x) + y;
        RemoveAll(a, ch) + y;
      }
    }
  }

  /** A character found in no field and different from the separator is absent from the join. */
  lemma {:induction false} JoinFree(parts: seq<string>, sep: char, ch: char)
    requires ch != sep
    requires forall i :: 0 <= i < |parts| ==> ch !in parts[i]
    ensures ch !in Join(parts, sep)
  {
    if |parts| >= 2 {
      JoinFree(parts[1..], sep, ch);
    }
  }
}
