/** String splitting as JavaScript's `String.prototype.split` does it with a
    one-character separator, and the e-mail local part `email.split('@')[0]`
    that the session code uses as a display name. */
module Text {

  const At: char := '@'

  /** Glues the pieces back together with `sep` between neighbours
      (`Array.prototype.join`). */
  function Join(parts: seq<string>, sep: char): (r: string)
    requires |parts| >= 1
    decreases |parts|
  {
    if |parts| == 1 then parts[0] else parts[0] + [sep] + Join(parts[1..], sep)
  }

  /** `s.split(sep)`: always at least one piece, no piece holds the separator,
      and joining the pieces with the separator gives back `s`. */
  function Split(s: string, sep: char): (r: seq<string>)
    ensures |r| >= 1
    ensures forall i :: 0 <= i < |r| ==> sep !in r[i]
    ensures Join(r, sep) == s
    decreases |s|
  {
    if |s| == 0 then [""]
    else
      var rest := Split(s[1..], sep);
      if s[0] == sep then
        JoinCons("", rest, sep);
        assert [s[0]] + s[1..] == s;
        [""] + rest
      else
        ExtendFirst(s[0], rest, sep);
        assert [s[0]] + s[1..] == s;
        [[s[0]] + rest[0]] + rest[1..]
  }

  /** Joining `[p] + parts` puts `p` and a separator in front. */
  lemma JoinCons(p: string, parts: seq<string>, sep: char)
    requires |parts| >= 1
    ensures Join([p] + parts, sep) == p + [sep] + Join(parts, sep)
  {
  }

  /** Prepending a character to the first piece prepends it to the join. */
  lemma ExtendFirst(c: char, parts: seq<string>, sep: char)
    requires |parts| >= 1
    ensures Join([[c] + parts[0]] + parts[1..], sep) == [c] + Join(parts, sep)
  {
  }

  /** The first piece of a join is a prefix of it, followed by the separator
      whenever there is more than one piece. */
  lemma JoinFirstPiece(parts: seq<string>, sep: char)
    requires |parts| >= 1
    ensures parts[0] <= Join(parts, sep)
    ensures |parts| == 1 ==> Join(parts, sep) == parts[0]
    ensures |parts| > 1 ==> |parts[0]| < |Join(parts, sep)| && Join(parts, sep)[|parts[0]|] == sep
  {
  }

  /** `s.split('@')[0]`: the text before the first `@`, or all of `s` when
      it has none. */
  function LocalPart(s: string): (r: string)
    ensures r <= s
    ensures At !in r
    ensures |r| < |s| ==> s[|r|] == At
  {
    var parts := Split(s, At);
    JoinFirstPiece(parts, At);
    parts[0]
  }

  /** The three facts `LocalPart` promises determine it: any prefix free of
      `@` that ends at an `@` or at the end of `s` is the local part. */
  lemma LocalPartUnique(s: string, p: string)
    requires p <= s && At !in p && (|p| < |s| ==> s[|p|] == At)
    ensures p == LocalPart(s)
  {
  }

  /** An address without `@` is its own local part, and only such an
      address is. */
  lemma LocalPartWhole(s: string)
    ensures LocalPart(s) == s <==> At !in s
  {
    if At !in s {
      LocalPartUnique(s, s);
    }
  }

  /** A leading `@` leaves an empty local part. */
  lemma LocalPartLeadingAt(t: string)
    ensures LocalPart([At] + t) == ""
  {
    LocalPartUnique([At] + t, "");
  }

  /** The local part of `a@b` is `a` when `a` holds no `@`. */
  lemma LocalPartOfAddress(a: string, b: string)
    requires At !in a
    ensures LocalPart(a + [At] + b) == a
  {
    var s := a + [At] + b;
    assert s[|a|] == At;
    LocalPartUnique(s, a);
  }

  /** A string without the separator splits into itself alone. */
  lemma {:induction false} SplitNoSep(a: string, sep: char)
    requires sep !in a
    ensures Split(a, sep) == [a]
    decreases |a|
  {
    if |a| > 0 {
      assert sep !in a[1..] by {
        forall i | 0 <= i < |a[1..]| ensures a[1..][i] != sep {
          assert a[1..][i] == a[i + 1];
        }
      }
      SplitNoSep(a[1..], sep);
      assert [a[0]] + a[1..] == a;
    }
  }

  /** Splitting `a + sep + t`, with `a` free of the separator, yields `a`
      followed by the pieces of `t`. */
  lemma {:induction false} SplitAtFirst(a: string, t: string, sep: char)
    requires sep !in a
    ensures Split(a + [sep] + t, sep) == [a] + Split(t, sep)
    decreases |a|
  {
    var s := a + [sep] + t;
    if |a| == 0 {
      assert s[1..] == t;
    } else {
      assert s[1..] == a[1..] + [sep] + t;
      assert sep !in a[1..] by {
        forall i | 0 <= i < |a[1..]| ensures a[1..][i] != sep {
          assert a[1..][i] == a[i + 1];
        }
      }
      SplitAtFirst(a[1..], t, sep);
      assert [a[0]] + a[1..] == a;
    }
  }

  /** Round trip the other way: pieces free of the separator are recovered
      by splitting their join. */
  lemma {:induction false} SplitJoin(parts: seq<string>, sep: char)
    requires |parts| >= 1
    requires forall i :: 0 <= i < |parts| ==> sep !in parts[i]
    ensures Split(Join(parts, sep), sep) == parts
    decreases |parts|
  {
    if |parts| == 1 {
      SplitNoSep(parts[0], sep);
    } else {
      SplitJoin(parts[1..], sep);
      SplitAtFirst(parts[0], Join(parts[1..], sep), sep);
      assert [parts[0]] + parts[1..] == parts;
    }
  }
}
