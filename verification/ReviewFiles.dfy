/** The four reviewed files of a job, their revision, and replacing them with undo
    (`snapshot`, `revision`, and the writing part of `save_review`). */
module ReviewFiles {
  import opened Options

  /** Contents by position: lyrics.lrc, lyrics.txt, metadata.json, lyrics.quality.json; a file may be missing. */
  type Files = s: seq<Option<string>> | |s| == 4 witness [None, None, None, None]

  const NAMES: seq<string> := ["lyrics.lrc", "lyrics.txt", "metadata.json", "lyrics.quality.json"]

  // ---- the bytes that are hashed ----

  function DigitChar(d: nat): char
    requires d < 10
  {
    (d + '0' as int) as char
  }

  function Decimal(n: nat): string {
    if n < 10 then [DigitChar(n)] else Decimal(n / 10) + [DigitChar(n % 10)]
  }

  function Content(file: Option<string>): string {
    if file.None? then "missing" else Decimal(|file.value|) + ":" + file.value
  }

  /** One file's field, and what follows it. */
  function Field(name: string, file: Option<string>, rest: string): string {
    name + "\0" + (Content(file) + rest)
  }

  /** What goes into the digest: name, zero byte, then "missing" or length, colon and data, for each
      file.  A collision-free digest is represented by what it digests. */
  function Revision(files: Files): string {
    Field(NAMES[0], files[0], Field(NAMES[1], files[1], Field(NAMES[2], files[2], Field(NAMES[3], files[3], ""))))
  }

  predicate IsDigit(c: char) {
    '0' <= c <= '9'
  }

  lemma {:induction false} DecimalDigits(n: nat)
    ensures Decimal(n) != [] && forall k :: 0 <= k < |Decimal(n)| ==> IsDigit(Decimal(n)[k])
  {
    if n >= 10 {
      DecimalDigits(n / 10);
    }
  }

  lemma {:induction false} DecimalInjective(m: nat, n: nat)
    requires Decimal(m) == Decimal(n)
    ensures m == n
  {
    if m >= 10 {
      DecimalDigits(m / 10);
    }
    if n >= 10 {
      DecimalDigits(n / 10);
    }
    if m >= 10 && n >= 10 {
      var x, y := Decimal(m), Decimal(n);
      assert x[..|x| - 1] == Decimal(m / 10) && y[..|y| - 1] == Decimal(n / 10);
      assert x[|x| - 1] == DigitChar(m % 10) && y[|y| - 1] == DigitChar(n % 10);
      DecimalInjective(m / 10, n / 10);
    } else {
      assert |Decimal(m)| == |Decimal(n)|;
      assert Decimal(m)[|Decimal(m)| - 1] == Decimal(n)[|Decimal(n)| - 1];
    }
  }

  ghost function FirstColon(s: string): nat {
    if s == [] || s[0] == ':' then 0 else 1 + FirstColon(s[1..])
  }

  lemma {:induction false} ColonBehindDigits(a: string, x: string)
    requires forall k :: 0 <= k < |a| ==> IsDigit(a[k])
    ensures FirstColon(a + (":" + x)) == |a|
  {
    var s := a + (":" + x);
    if a != [] {
      assert s[1..] == a[1..] + (":" + x);
      ColonBehindDigits(a[1..], x);
    }
  }

  /** Two texts of digits ended by a colon: equal wholes have equal parts. */
  lemma {:induction false} SplitAtColon(a: string, x: string, b: string, y: string)
    requires a + (":" + x) == b + (":" + y)
    requires (forall k :: 0 <= k < |a| ==> IsDigit(a[k])) && (forall k :: 0 <= k < |b| ==> IsDigit(b[k]))
    ensures a == b && x == y
  {
    ColonBehindDigits(a, x);
    ColonBehindDigits(b, y);
    SplitAt(a, ":" + x, b, ":" + y);
    SplitAt(":", x, ":", y);
  }

  lemma {:induction false} SplitAt(a: string, x: string, b: string, y: string)
    requires a + x == b + y && |a| == |b|
    ensures a == b && x == y
  {
    assert a == (a + x)[..|a|] && x == (a + x)[|a|..];
    assert b == (b + y)[..|b|] && y == (b + y)[|b|..];
  }

  lemma {:induction false} PresentContent(f: Option<string>, x: string)
    requires f.Some?
    ensures Content(f) + x == Decimal(|f.value|) + (":" + (f.value + x))
    ensures IsDigit((Content(f) + x)[0])
  {
    DecimalDigits(|f.value|);
    assert (Content(f) + x)[0] == Decimal(|f.value|)[0];
  }

  lemma {:induction false} MissingContent(f: Option<string>, x: string)
    requires f.None?
    ensures Content(f) + x == "missing" + x && (Content(f) + x)[0] == 'm'
  {
  }

  /** The content field can be read back whatever follows it. */
  lemma {:induction false} ContentInjective(f: Option<string>, g: Option<string>, x: string, y: string)
    requires Content(f) + x == Content(g) + y
    ensures f == g && x == y
  {
    hide Content;
    hide Decimal;
    if f.Some? && g.Some? {
      PresentContent(f, x);
      PresentContent(g, y);
      DecimalDigits(|f.value|);
      DecimalDigits(|g.value|);
      SplitAtColon(Decimal(|f.value|), f.value + x, Decimal(|g.value|), g.value + y);
      DecimalInjective(|f.value|, |g.value|);
      SplitAt(f.value, x, g.value, y);
    } else if f.None? && g.None? {
      MissingContent(f, x);
      MissingContent(g, y);
      SplitAt("missing", x, "missing", y);
    } else if f.Some? {
      PresentContent(f, x);
      MissingContent(g, y);
    } else {
      MissingContent(f, x);
      PresentContent(g, y);
    }
  }

  lemma {:induction false} FieldInjective(name: string, f: Option<string>, g: Option<string>, x: string, y: string)
    requires Field(name, f, x) == Field(name, g, y)
    ensures f == g && x == y
  {
    hide Content;
    SplitAt(name + "\0", Content(f) + x, name + "\0", Content(g) + y);
    ContentInjective(f, g, x, y);
  }

  /** Different files never give the same revision: a missing file differs from an empty one, and
      no content can pretend to be the next field. */
  lemma {:induction false} RevisionInjective(f: Files, g: Files)
    ensures Revision(f) == Revision(g) <==> f == g
  {
    hide Field;
    if Revision(f) == Revision(g) {
      var f3, g3 := Field(NAMES[3], f[3], ""), Field(NAMES[3], g[3], "");
      var f2, g2 := Field(NAMES[2], f[2], f3), Field(NAMES[2], g[2], g3);
      FieldInjective(NAMES[0], f[0], g[0], Field(NAMES[1], f[1], f2), Field(NAMES[1], g[1], g2));
      FieldInjective(NAMES[1], f[1], g[1], f2, g2);
      FieldInjective(NAMES[2], f[2], g[2], f3, g3);
      FieldInjective(NAMES[3], f[3], g[3], "", "");
      assert f == [f[0], f[1], f[2], f[3]] && g == [g[0], g[1], g[2], g[3]];
    }
  }

  // ---- replacing files in place ----

  /** A replace may succeed, fail leaving the old file, or fail after the new file is in place. */
  datatype Fault = Fine | FailsBefore | FailsAfter

  class ExportDirectory {
    var files: Files

    constructor (initial: Files)
      ensures files == initial
    {
      files := initial;
    }

    method Replace(i: nat, data: Option<string>, fault: Fault) returns (ok: bool)
      requires i < 4
      modifies this
      ensures ok <==> fault == Fine
      ensures files == if fault == FailsBefore then old(files) else old(files)[i := data]
    {
      if fault != FailsBefore {
        files := files[i := data];
      }
      ok := fault == Fine;
    }

    /** Replaces the four files in order; on a failure every touched file is put back, newest first.
        `rowsFail` is a failure after all files, while the rows are prepared. */
    method ReplaceAll(candidate: Files, faults: nat -> Fault, rowsFail: bool) returns (ok: bool)
      modifies this
      ensures ok <==> !rowsFail && forall i :: 0 <= i < 4 ==> faults(i) == Fine
      ensures files == if ok then candidate else old(files)
    {
      ghost var original := files;
      var before := files;
      var touched := 0;
      ok := true;
      while touched < 4 && ok
        invariant touched <= 4
        invariant forall i :: 0 <= i < touched - 1 ==> faults(i) == Fine && files[i] == candidate[i]
        invariant ok && touched > 0 ==> faults(touched - 1) == Fine && files[touched - 1] == candidate[touched - 1]
        invariant !ok ==> touched > 0 && faults(touched - 1) != Fine
        invariant forall i :: touched <= i < 4 ==> files[i] == original[i]
        invariant before == original
        decreases 4 - touched, ok
      {
        touched := touched + 1;
        ok := Replace(touched - 1, candidate[touched - 1], faults(touched - 1));
      }
      if ok && rowsFail {
        ok := false;
      }
      if !ok {
        while touched > 0
          invariant touched <= 4
          invariant forall i :: touched <= i < 4 ==> files[i] == original[i]
        {
          touched := touched - 1;
          var restored := Replace(touched, before[touched], Fine);
        }
        assert files == original;
      } else {
        assert files == candidate;
      }
    }
  }
}
