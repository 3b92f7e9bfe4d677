/** The seed-list parser `_parse_num_range`: either an inclusive range
    `a-b` of digit strings, or a comma-separated list of integers. */
module NumRange {
  import opened Wrappers
  import opened Strings
  import opened Ints

  /** Python's `range(lo, hi + 1)`: the consecutive integers lo..hi, empty when lo > hi. */
  function Range(lo: int, hi: int): (r: seq<int>)
    ensures |r| == if lo <= hi then hi - lo + 1 else 0
    ensures forall i :: 0 <= i < |r| ==> r[i] == lo + i
    decreases hi - lo
  {
    if lo > hi then [] else [lo] + Range(lo + 1, hi)
  }

  /** The match of `^(\d+)-(\d+)$`: the two digit groups, if the whole text is one. */
  function MatchRange(s: string): (m: Option<(string, string)>)
    ensures m.Some? ==> IsDigits(m.value.0) && IsDigits(m.value.1)
    ensures m.Some? ==> s == m.value.0 + "-" + m.value.1
  {
    var parts := Split(s, '-');
    if |parts| == 2 && IsDigits(parts[0]) && IsDigits(parts[1]) then
      assert Join(parts, '-') == parts[0] + "-" + Join(parts[1..], '-');
      Some((parts[0], parts[1]))
    else None
  }

  /** Every field is an integer literal. */
  predicate AllIntLiterals(fields: seq<string>) {
    forall i :: 0 <= i < |fields| ==> IsIntLiteral(fields[i])
  }

  /** `[int(x) for x in fields]`: every field parsed in order, or the error of the
      first field that is not an integer, with no partial list. */
  function ParseFields(fields: seq<string>): (r: Result<seq<int>, IntError>)
    ensures r.Success? <==> forall i :: 0 <= i < |fields| ==> IsIntLiteral(fields[i])
    ensures r.Success? ==> |r.value| == |fields|
    ensures r.Success? ==> forall i :: 0 <= i < |fields| ==> ParseInt(fields[i]) == Success(r.value[i])
    ensures r.Failure? ==> exists i :: 0 <= i < |fields| && !IsIntLiteral(fields[i])
                                    && r.error == NotAnInteger(fields[i])
                                    && forall j :: 0 <= j < i ==> IsIntLiteral(fields[j])
    decreases |fields|
  {
    if |fields| == 0 then Success([])
    else
      var head :- ParseInt(fields[0]);
      var tail :- ParseFields(fields[1..]);
      Success([head] + tail)
  }

  /** `_parse_num_range(s)`: a range text yields its non-negative consecutive
      integers and never fails; any other text yields one integer per comma field. */
  function ParseNumRange(s: string): (r: Result<seq<int>, IntError>)
    ensures MatchRange(s).Some? ==> r.Success?
    ensures MatchRange(s).Some? ==> forall i :: 0 <= i < |r.value| ==> r.value[i] >= 0
    ensures MatchRange(s).Some? ==> forall i :: 0 < i < |r.value| ==> r.value[i] == r.value[i - 1] + 1
    ensures MatchRange(s).None? ==>
      (r.Success? <==> AllIntLiterals(Split(s, ',')))
    ensures MatchRange(s).None? && r.Success? ==> |r.value| == |Split(s, ',')|
  {
    match MatchRange(s)
    case Some((a, b)) => Success(Range(DigitsValue(a), DigitsValue(b)))
    case None =>
      var fields := Split(s, ',');
      ParseFields(fields)
  }

  /** The range regex matches exactly the texts `a-b` with `a`, `b` digit strings. */
  lemma MatchRangeSpec(s: string, a: string, b: string)
    ensures MatchRange(s) == Some((a, b)) <==> s == a + "-" + b && IsDigits(a) && IsDigits(b)
  {
    if MatchRange(s) == Some((a, b)) {
      var parts := Split(s, '-');
      assert parts == [a, b];
      assert Join(parts, '-') == a + "-" + Join(parts[1..], '-');
    }
    if s == a + "-" + b && IsDigits(a) && IsDigits(b) {
      DigitsExclude(a, '-');
      DigitsExclude(b, '-');
      assert Join([a, b], '-') == s;
      SplitJoin([a, b], '-');
    }
  }

  /** Range form: `a-b` yields exactly a, a+1, ..., b. */
  lemma RangeForm(a: string, b: string)
    requires IsDigits(a) && IsDigits(b)
    ensures var r := ParseNumRange(a + "-" + b);
      && r.Success?
      && |r.value| == (if DigitsValue(a) <= DigitsValue(b) then DigitsValue(b) - DigitsValue(a) + 1 else 0)
      && forall i :: 0 <= i < |r.value| ==> r.value[i] == DigitsValue(a) + i
  {
    MatchRangeSpec(a + "-" + b, a, b);
  }

  /** A reversed range is an empty list, not an error. */
  lemma EmptyRange(a: string, b: string)
    requires IsDigits(a) && IsDigits(b) && DigitsValue(a) > DigitsValue(b)
    ensures ParseNumRange(a + "-" + b) == Success([])
  {
    RangeForm(a, b);
  }

  /** The range form never yields a negative number. */
  lemma RangeFormNonNegative(s: string)
    requires MatchRange(s).Some?
    ensures ParseNumRange(s).Success?
    ensures forall i :: 0 <= i < |ParseNumRange(s).value| ==> ParseNumRange(s).value[i] >= 0
  {
  }

  /** A leading '-' never matches the range regex, so such text is read as a list. */
  lemma LeadingMinusIsList(s: string)
    requires |s| > 0 && s[0] == '-'
    ensures MatchRange(s).None?
    ensures ParseNumRange(s) == ParseFields(Split(s, ','))
  {
    SplitHead(s, '-');
  }

  /** List form: when the text is not a range, the comma fields are parsed one
      by one, in order, and all of them must be integers. */
  lemma ListForm(fields: seq<string>)
    requires |fields| >= 1 && NoSep(fields, ',')
    requires MatchRange(Join(fields, ',')).None?
    ensures var r := ParseNumRange(Join(fields, ','));
      && (r.Success? <==> forall i :: 0 <= i < |fields| ==> IsIntLiteral(fields[i]))
      && (r.Success? ==> |r.value| == |fields|
                         && forall i :: 0 <= i < |fields| ==> ParseInt(fields[i]) == Success(r.value[i]))
  {
    SplitJoin(fields, ',');
  }

  /** One bad comma field fails the whole parse. */
  lemma ListFormError(fields: seq<string>, k: int)
    requires |fields| >= 1 && NoSep(fields, ',')
    requires MatchRange(Join(fields, ',')).None?
    requires 0 <= k < |fields| && !IsIntLiteral(fields[k])
    ensures ParseNumRange(Join(fields, ',')).Failure?
  {
    ListForm(fields);
  }

  /** A single number, negative or not, is the one-element list holding it. */
  lemma SingleNumber(n: int)
    ensures ParseNumRange(ShowInt(n)) == Success([n])
  {
    var s := ShowInt(n);
    ParseShowInt(n);
    if n < 0 {
      LeadingMinusIsList(s);
    } else {
      DigitsExclude(s, '-');
      SplitNoSep(s, '-');
    }
    assert !IsDigit(',');
    if n < 0 {
      DigitsExclude(s[1..], ',');
      assert s == [s[0]] + s[1..];
    } else {
      DigitsExclude(s, ',');
    }
    SplitNoSep(s, ',');
    var r := ParseFields([s]);
    assert IsIntLiteral([s][0]);
    assert r.Success? && |r.value| == 1 && ParseInt(s) == Success(r.value[0]);
    assert r.value == [n];
  }

  /** Text such as `1-2-3`, with more than one dash and no comma, is neither a
      range nor an integer, so it fails. */
  lemma MultiDashFails(a: string, b: string, c: string)
    requires IsDigits(a) && IsDigits(b) && IsDigits(c)
    ensures ParseNumRange(a + "-" + b + "-" + c).Failure?
  {
    var s := a + "-" + b + "-" + c;
    DigitsExclude(a, '-');
    DigitsExclude(b, '-');
    DigitsExclude(c, '-');
    assert Join([a, b, c], '-') == s by {
      assert [a, b, c][1..] == [b, c];
      assert Join([b, c], '-') == b + "-" + c;
    }
    SplitJoin([a, b, c], '-');
    DigitsExclude(a, ',');
    DigitsExclude(b, ',');
    DigitsExclude(c, ',');
    assert ',' !in s;
    SplitNoSep(s, ',');
    assert !IsIntLiteral(s) by {
      if |a| > 0 {
        assert s[|a|] == '-';
        assert !IsDigits(s);
      }
    }
  }

  /** An empty comma field (a doubled or trailing comma) fails the whole parse. */
  lemma EmptyFieldFails(fields: seq<string>, k: int)
    requires |fields| >= 1 && NoSep(fields, ',')
    requires 0 <= k < |fields| && fields[k] == ""
    ensures ParseNumRange(Join(fields, ',')).Failure?
  {
    var s := Join(fields, ',');
    SplitJoin(fields, ',');
    if MatchRange(s).Some? {
      var (a, b) := MatchRange(s).value;
      MatchRangeSpec(s, a, b);
      DigitsExclude(a, ',');
      DigitsExclude(b, ',');
      assert ',' !in s;
      SplitNoSep(s, ',');
      assert false;
    }
    ListFormError(fields, k);
  }
}
