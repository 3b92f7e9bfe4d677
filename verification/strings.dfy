/** Python's `str.split(sep)` for a one-character separator, with `Join`
    (Python's `sep.join`) as its inverse. */
module Strings {

  /** No field contains the separator. */
  predicate NoSep(fields: seq<string>, sep: char) {
    forall i :: 0 <= i < |fields| ==> sep !in fields[i]
  }

  /** The fields glued back together with one separator between neighbours. */
  function Join(fields: seq<string>, sep: char): string
    requires |fields| >= 1
    decreases |fields|
  {
    if |fields| == 1 then fields[0] else fields[0] + [sep] + Join(fields[1..], sep)
  }

  /** Splits at every occurrence of `sep`, keeping empty fields, exactly as
      `s.split(sep)` does: there is always at least one field, and a string
      with k separators yields k + 1 fields. */
  function Split(s: string, sep: char): (fields: seq<string>)
    ensures |fields| >= 1
    ensures NoSep(fields, sep)
    ensures Join(fields, sep) == s
    decreases |s|
  {
    if |s| == 0 then [""]
    else
      var rest := Split(s[1..], sep);
      if s[0] == sep then
        assert ([""] + rest)[1..] == rest;
        [""] + rest
      else
        var fields := [[s[0]] + rest[0]] + rest[1..];
        assert fields[1..] == rest[1..];
        assert s == [s[0]] + s[1..];
        fields
  }

  /** The longest prefix of `s` that does not contain `sep`. */
  function FirstField(s: string, sep: char): (h: string)
    ensures |h| <= |s| && h == s[..|h|]
    ensures sep !in h
    ensures |h| < |s| ==> s[|h|] == sep
    decreases |s|
  {
    if |s| == 0 || s[0] == sep then "" else [s[0]] + FirstField(s[1..], sep)
  }

  lemma {:induction false} SplitNoSep(a: string, sep: char)
    requires sep !in a
    ensures Split(a, sep) == [a]
    decreases |a|
  {
    if |a| > 0 {
      SplitNoSep(a[1..], sep);
      assert [a[0]] + a[1..] == a;
    }
  }

  /** A separator-free prefix followed by the separator becomes the first field. */
  lemma {:induction false} SplitCons(a: string, sep: char, t: string)
    requires sep !in a
    ensures Split(a + [sep] + t, sep) == [a] + Split(t, sep)
    decreases |a|
  {
    var s := a + [sep] + t;
    if |a| == 0 {
      assert s[1..] == t;
    } else {
      assert s[1..] == a[1..] + [sep] + t;
      SplitCons(a[1..], sep, t);
      assert [a[0]] + a[1..] == a;
    }
  }

  /** Split inverts Join on separator-free fields. */
  lemma {:induction false} SplitJoin(fields: seq<string>, sep: char)
    requires |fields| >= 1 && NoSep(fields, sep)
    ensures Split(Join(fields, sep), sep) == fields
    decreases |fields|
  {
    if |fields| == 1 {
      SplitNoSep(fields[0], sep);
    } else {
      assert sep !in fields[0];
      SplitJoin(fields[1..], sep);
      SplitCons(fields[0], sep, Join(fields[1..], sep));
      assert [fields[0]] + fields[1..] == fields;
    }
  }

  /** Split is the unique separator-free decomposition that Join reverses. */
  lemma SplitCharacterization(s: string, fields: seq<string>, sep: char)
    ensures Split(s, sep) == fields <==> |fields| >= 1 && NoSep(fields, sep) && Join(fields, sep) == s
  {
    if |fields| >= 1 && NoSep(fields, sep) && Join(fields, sep) == s {
      SplitJoin(fields, sep);
    }
  }

  /** The first field of a split is the text before the first separator. */
  lemma {:induction false} SplitHead(s: string, sep: char)
    ensures Split(s, sep)[0] == FirstField(s, sep)
    decreases |s|
  {
    if |s| > 0 && s[0] != sep {
      SplitHead(s[1..], sep);
    }
  }
}
