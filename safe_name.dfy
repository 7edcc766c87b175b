/**
 Model of `bandersnatch_safe_name` and `SAFE_NAME_REGEX` (src/bandersnatch/utils.py).

 The normaliser replaces every maximal run of characters outside
 `[A-Za-z0-9.]` by a single `-` (the regex `[^A-Za-z0-9.]+` substituted
 leftmost and greedily) and then lower-cases the result.  Only ASCII
 survives the substitution, so lower-casing is `A-Z -> a-z`.
 */
module SafeName {
  // `RemoveChar(s, '-')` strips the dashes when the properties below
  // compare a safe name with the characters it kept.
  import opened TimeStamp

  /** The character class `[A-Za-z0-9.]` of SAFE_NAME_REGEX. */
  predicate IsAllowed(c: char)
  {
    ('A' <= c <= 'Z') || ('a' <= c <= 'z') || ('0' <= c <= '9') || c == '.'
  }

  /** The alphabet of a normalised name: `a-z`, `0-9`, `.` and `-`. */
  predicate IsSafeChar(c: char)
  {
    ('a' <= c <= 'z') || ('0' <= c <= '9') || c == '.' || c == '-'
  }

  /** No two adjacent dashes. */
  predicate NoDoubleDash(s: string)
  {
    forall i :: 0 <= i < |s| - 1 ==> !(s[i] == '-' && s[i + 1] == '-')
  }

  /** The length of the maximal leading run of disallowed characters: what
      one greedy match of `[^A-Za-z0-9.]+` consumes at the start of `s`. */
  function RunLength(s: string): (n: nat)
    ensures n <= |s|
    ensures n < |s| ==> IsAllowed(s[n])
    ensures forall i :: 0 <= i < n ==> !IsAllowed(s[i])
  {
    if |s| == 0 || IsAllowed(s[0]) then 0
    else
      var n := RunLength(s[1..]);
      assert forall i :: 1 <= i < n + 1 ==> !IsAllowed(s[i]) by {
        forall i | 1 <= i < n + 1 ensures !IsAllowed(s[i]) {
          assert s[i] == s[1..][i - 1];
        }
      }
      1 + n
  }

  /** `s` after its leading run of disallowed characters. */
  function DropRun(s: string): string
  {
    s[RunLength(s)..]
  }

  /** `SAFE_NAME_REGEX.sub("-", s)`.  The output is never longer than the
      input, is empty only for an empty input, and starts with a dash exactly
      when the input starts with a disallowed character. */
  function Substitute(s: string): (r: string)
    ensures |r| <= |s|
    ensures |r| == 0 <==> |s| == 0
    ensures |s| > 0 ==> (r[0] == '-' <==> !IsAllowed(s[0]))
    decreases |s|
  {
    if |s| == 0 then []
    else if IsAllowed(s[0]) then [s[0]] + Substitute(s[1..])
    else "-" + Substitute(DropRun(s))
  }

  /** The same substitution written as a left-to-right scan that remembers
      whether it is inside a run of disallowed characters. */
  function ScanRuns(s: string, inRun: bool): string
  {
    if |s| == 0 then []
    else if IsAllowed(s[0]) then [s[0]] + ScanRuns(s[1..], false)
    else if inRun then ScanRuns(s[1..], true)
    else "-" + ScanRuns(s[1..], true)
  }

  function LowerChar(c: char): char
  {
    if 'A' <= c <= 'Z' then (c as int - 'A' as int + 'a' as int) as char else c
  }

  /** The lower-case alphabet, indexed by a letter's place in `A-Z`. */
  const LowerLetters: string := "abcdefghijklmnopqrstuvwxyz"

  /** `str.lower()` restricted to ASCII, which is all that reaches it: each
      upper-case letter becomes the lower-case letter at the same place in
      the alphabet, every other character stays, and a character ends up in
      the safe alphabet exactly when it was allowed or a dash. */
  function Lower(s: string): (r: string)
    ensures |r| == |s|
    ensures forall i :: 0 <= i < |s| ==> !('A' <= r[i] <= 'Z')
    ensures forall i :: 0 <= i < |s| && 'A' <= s[i] <= 'Z' ==> r[i] == LowerLetters[s[i] as int - 'A' as int]
    ensures forall i :: 0 <= i < |s| && !('A' <= s[i] <= 'Z') ==> r[i] == s[i]
    ensures forall i :: 0 <= i < |s| ==> (IsSafeChar(r[i]) <==> IsAllowed(s[i]) || s[i] == '-')
  {
    seq(|s|, i requires 0 <= i < |s| => LowerChar(s[i]))
  }

  /** `bandersnatch_safe_name(name)`. */
  function SafeName(name: string): string
  {
    Lower(Substitute(name))
  }

  /** The allowed characters of `s`, in order. */
  function Kept(s: string): string
  {
    if |s| == 0 then []
    else if IsAllowed(s[0]) then [s[0]] + Kept(s[1..])
    else Kept(s[1..])
  }

  // ---------------------------------------------------------------------
  // The substitution

  /** A scan already inside a run skips exactly that run's greedy match. */
  lemma {:induction false} ScanRunsInRun(s: string)
    ensures ScanRuns(s, true) == ScanRuns(DropRun(s), false)
    decreases |s|
  {
    if |s| > 0 && !IsAllowed(s[0]) {
      ScanRunsInRun(s[1..]);
    }
  }

  /** The recursive definition and the flag scan agree. */
  lemma {:induction false} SubstituteIsScan(s: string)
    ensures Substitute(s) == ScanRuns(s, false)
    decreases |s|
  {
    if |s| == 0 {
    } else if IsAllowed(s[0]) {
      SubstituteIsScan(s[1..]);
    } else {
      ScanRunsInRun(s[1..]);
      SubstituteIsScan(DropRun(s));
    }
  }

  /** Every output character is allowed or a dash, no dash follows a dash,
      and the output is never longer than the input. */
  lemma {:induction false} SubstituteShape(s: string)
    ensures forall i :: 0 <= i < |Substitute(s)| ==> IsAllowed(Substitute(s)[i]) || Substitute(s)[i] == '-'
    ensures NoDoubleDash(Substitute(s))
    ensures |Substitute(s)| <= |s|
    decreases |s|
  {
    if |s| == 0 {
    } else if IsAllowed(s[0]) {
      SubstituteShape(s[1..]);
      assert Substitute(s) == [s[0]] + Substitute(s[1..]);
    } else {
      var rest := DropRun(s);
      SubstituteShape(rest);
      assert Substitute(s) == "-" + Substitute(rest);
    }
  }

  /** A greedy match drops no allowed character. */
  lemma {:induction false} KeptDropRun(s: string)
    ensures Kept(DropRun(s)) == Kept(s)
    decreases |s|
  {
    if |s| > 0 && !IsAllowed(s[0]) {
      KeptDropRun(s[1..]);
    }
  }

  /** The substitution keeps exactly the allowed characters, in order. */
  lemma {:induction false} SubstituteKeeps(s: string)
    ensures RemoveChar(Substitute(s), '-') == Kept(s)
    decreases |s|
  {
    if |s| == 0 {
    } else if IsAllowed(s[0]) {
      SubstituteKeeps(s[1..]);
      assert Substitute(s) == [s[0]] + Substitute(s[1..]);
    } else {
      SubstituteKeeps(DropRun(s));
      KeptDropRun(s);
      assert Substitute(s) == "-" + Substitute(DropRun(s));
    }
  }

  /** A string already in the normal form is a fixed point of the substitution. */
  lemma {:induction false} SubstituteFixed(t: string)
    requires forall i :: 0 <= i < |t| ==> IsSafeChar(t[i])
    requires NoDoubleDash(t)
    ensures Substitute(t) == t
    decreases |t|
  {
    if |t| > 0 {
      var rest := t[1..];
      assert forall i :: 0 <= i < |rest| ==> IsSafeChar(rest[i]) by {
        forall i | 0 <= i < |rest| ensures IsSafeChar(rest[i]) {
          assert rest[i] == t[i + 1];
        }
      }
      assert NoDoubleDash(rest) by {
        forall i | 0 <= i < |rest| - 1 ensures !(rest[i] == '-' && rest[i + 1] == '-') {
          assert rest[i] == t[i + 1] && rest[i + 1] == t[i + 2];
        }
      }
      SubstituteFixed(rest);
      if !IsAllowed(t[0]) {
        assert t[0] == '-';
        if |rest| > 0 {
          assert rest[0] == t[1] && t[1] != '-';
          assert IsAllowed(rest[0]);
        }
        assert DropRun(rest) == rest;
        assert DropRun(t) == rest;
      }
    }
  }

  // ---------------------------------------------------------------------
  // Lower-casing

  lemma {:induction false} RemoveDashesLower(s: string)
    ensures RemoveChar(Lower(s), '-') == Lower(RemoveChar(s, '-'))
    decreases |s|
  {
    if |s| > 0 {
      RemoveDashesLower(s[1..]);
      assert Lower(s) == [LowerChar(s[0])] + Lower(s[1..]);
      if s[0] != '-' {
        assert Lower([s[0]] + RemoveChar(s[1..], '-')) == [LowerChar(s[0])] + Lower(RemoveChar(s[1..], '-'));
      }
    }
  }

  // ---------------------------------------------------------------------
  // Properties of bandersnatch_safe_name

  /** The result uses only `a-z`, `0-9`, `.` and `-`. */
  lemma SafeNameAlphabet(name: string)
    ensures forall i :: 0 <= i < |SafeName(name)| ==> IsSafeChar(SafeName(name)[i])
  {
    SubstituteShape(name);
  }

  /** Each run of disallowed characters became exactly one dash, so no two
      dashes are adjacent. */
  lemma SafeNameNoDoubleDash(name: string)
    ensures NoDoubleDash(SafeName(name))
  {
    SubstituteShape(name);
  }

  /** The result is never longer than the input, and is empty only for an
      empty input. */
  lemma SafeNameLength(name: string)
    ensures |SafeName(name)| <= |name|
    ensures |SafeName(name)| == 0 <==> |name| == 0
  {
    SubstituteShape(name);
  }

  /** Every allowed character of the input survives, lower-cased and in
      order, and nothing else but dashes is added. */
  lemma SafeNameKeeps(name: string)
    ensures RemoveChar(SafeName(name), '-') == Lower(Kept(name))
  {
    SubstituteKeeps(name);
    RemoveDashesLower(Substitute(name));
  }

  /** Normalising twice is the same as normalising once. */
  lemma SafeNameIdempotent(name: string)
    ensures SafeName(SafeName(name)) == SafeName(name)
  {
    var t := SafeName(name);
    SafeNameAlphabet(name);
    SafeNameNoDoubleDash(name);
    SubstituteFixed(t);
    assert Lower(t) == t;
  }

}
