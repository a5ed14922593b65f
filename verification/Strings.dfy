/** What the other modules share. */
module Strings {
  datatype Option<T> = None | Some(value: T)

  predicate NoRepeats<T(==)>(s: seq<T>) {
    forall i, j :: 0 <= i < j < |s| ==> s[i] != s[j]
  }

  lemma {:induction false} PartsHaveNoRepeats<T>(a: seq<T>, b: seq<T>)
    requires NoRepeats(a + b)
    ensures NoRepeats(a) && NoRepeats(b) && forall x <- a :: x !in b
  {
    var s := a + b;
    forall i, j | 0 <= i < j < |a| ensures a[i] != a[j] {
      assert s[i] == a[i] && s[j] == a[j];
    }
    forall i, j | 0 <= i < j < |b| ensures b[i] != b[j] {
      assert s[|a| + i] == b[i] && s[|a| + j] == b[j];
    }
    forall x | x in a ensures x !in b {
      var i :| 0 <= i < |a| && a[i] == x;
      forall j | 0 <= j < |b| ensures b[j] != x {
        assert s[i] == x && s[|a| + j] == b[j];
      }
    }
  }

  lemma {:induction false} DisjointHaveNoRepeats<T>(a: seq<T>, b: seq<T>)
    requires NoRepeats(a) && NoRepeats(b) && forall x <- a :: x !in b
    ensures NoRepeats(a + b)
  {
    var s := a + b;
    forall i, j | 0 <= i < j < |s| ensures s[i] != s[j] {
      assert i < |a| ==> s[i] == a[i] && a[i] in a;
      assert j >= |a| ==> s[j] == b[j - |a|] && b[j - |a|] in b;
    }
  }

  /** `strings.Join` */
  function Join(parts: seq<string>, separator: string): string {
    if parts == [] then ""
    else if |parts| == 1 then parts[0]
    else parts[0] + separator + Join(parts[1..], separator)
  }

  /** `strings.Split`, for a separator that is not empty. */
  function Split(s: string, separator: string): (parts: seq<string>)
    requires separator != ""
    ensures parts != []
  {
    if s == "" then [""]
    else if separator <= s then [""] + Split(s[|separator|..], separator)
    else
      var rest := Split(s[1..], separator);
      [[s[0]] + rest[0]] + rest[1..]
  }

  /** Followed by the separator, the part is where it is split. */
  ghost predicate IsPart(part: string, separator: string) {
    forall k | 0 <= k < |part| :: !(separator <= (part + separator)[k..])
  }

  lemma {:induction false} OtherCharsArePart(part: string, separator: string)
    requires separator != "" && separator[0] !in part
    ensures IsPart(part, separator)
  {
    forall k | 0 <= k < |part| ensures !(separator <= (part + separator)[k..]) {
      assert (part + separator)[k..][0] == part[k] && part[k] in part;
    }
  }

  lemma {:induction false} TailIsPart(part: string, separator: string)
    requires part != "" && IsPart(part, separator)
    ensures IsPart(part[1..], separator)
  {
    forall k | 0 <= k < |part| - 1 ensures !(separator <= (part[1..] + separator)[k..]) {
      assert (part[1..] + separator)[k..] == (part + separator)[k + 1..];
    }
  }

  lemma {:induction false} NotBefore(part: string, separator: string, rest: string)
    requires part != "" && IsPart(part, separator)
    ensures !(separator <= part) && !(separator <= part + separator + rest)
  {
    assert (part + separator)[0..] == part + separator;
    if separator <= part + separator + rest {
      assert separator <= part + separator;
    }
  }

  lemma {:induction false} SplitAfterPart(part: string, separator: string, rest: string)
    requires separator != "" && IsPart(part, separator)
    ensures Split(part, separator) == [part]
    ensures Split(part + separator + rest, separator) == [part] + Split(rest, separator)
  {
    hide *;
    var all := part + separator + rest;
    if part == "" {
      assert all == separator + rest;
      SplitNothing(separator, rest);
    } else {
      TailIsPart(part, separator);
      SplitAfterPart(part[1..], separator, rest);
      NotBefore(part, separator, rest);
      SplitOneChar(part, separator);
      SplitOneChar(all, separator);
      assert all[1..] == part[1..] + separator + rest && all[0] == part[0];
      assert [part[0]] + part[1..] == part;
      assert ([part[1..]] + Split(rest, separator))[1..] == Split(rest, separator);
    }
  }

  lemma {:induction false} SplitNothing(separator: string, rest: string)
    requires separator != ""
    ensures Split("", separator) == [""] && Split(separator + rest, separator) == [""] + Split(rest, separator)
  {
    assert (separator + rest)[|separator|..] == rest;
  }

  lemma {:induction false} SplitOneChar(s: string, separator: string)
    requires separator != "" && s != "" && !(separator <= s)
    ensures Split(s, separator) == [[s[0]] + Split(s[1..], separator)[0]] + Split(s[1..], separator)[1..]
  {
  }

  lemma {:induction false} SplitInvertsJoin(parts: seq<string>, separator: string)
    requires separator != "" && parts != [] && forall p <- parts :: IsPart(p, separator)
    ensures Split(Join(parts, separator), separator) == parts
  {
    hide IsPart, Split;
    assert parts == [parts[0]] + parts[1..];
    if |parts| == 1 {
      SplitAfterPart(parts[0], separator, "");
    } else {
      SplitInvertsJoin(parts[1..], separator);
      SplitAfterPart(parts[0], separator, Join(parts[1..], separator));
    }
  }

  /** Lexicographic order by code point, the order of their UTF-8 bytes. */
  predicate Less(a: string, b: string) {
    b != [] && (a == [] || a[0] < b[0] || (a[0] == b[0] && Less(a[1..], b[1..])))
  }

  lemma {:induction false} LessIsStrictOrder(a: string, b: string)
    ensures !(Less(a, b) && Less(b, a)) && !Less(a, a)
    ensures Less(a, b) || Less(b, a) || a == b
  {
    if a != [] {
      LessIsStrictOrder(a[1..], if b == [] then [] else b[1..]);
      assert a == [a[0]] + a[1..];
    }
    if b != [] {
      assert b == [b[0]] + b[1..];
    }
  }

  lemma {:induction false} LessIsTransitive(a: string, b: string, c: string)
    requires Less(a, b) && Less(b, c)
    ensures Less(a, c)
  {
    if a != [] {
      if a[0] == b[0] && b[0] == c[0] {
        LessIsTransitive(a[1..], b[1..], c[1..]);
      }
    }
  }
}
