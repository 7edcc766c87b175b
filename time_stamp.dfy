/**
 Model of the string part of `make_time_stamp` (src/bandersnatch/utils.py):
 `f"{iso}Z".replace(":", "")`, where `iso` is what
 `datetime.utcnow().isoformat()` returned.  The clock is a parameter.
 */
module TimeStamp {

  /** `s.replace([c], "")`: every occurrence of `c` deleted. */
  function RemoveChar(s: string, c: char): string
  {
    if |s| == 0 then []
    else if s[0] == c then RemoveChar(s[1..], c)
    else [s[0]] + RemoveChar(s[1..], c)
  }

  /** `make_time_stamp()` given the ISO-8601 text of the current UTC time. */
  function MakeTimeStamp(iso: string): string
  {
    RemoveChar(iso + "Z", ':')
  }

  /** Deleting `c` removes all of it and nothing else: every other
      character keeps its number of occurrences. */
  lemma {:induction false} RemoveCharContents(s: string, c: char)
    ensures c !in RemoveChar(s, c)
    ensures forall d :: d != c ==> multiset(RemoveChar(s, c))[d] == multiset(s)[d]
    ensures |RemoveChar(s, c)| == |s| - multiset(s)[c]
    decreases |s|
  {
    if |s| > 0 {
      RemoveCharContents(s[1..], c);
      assert s == [s[0]] + s[1..];
      assert multiset(s) == multiset{s[0]} + multiset(s[1..]);
    }
  }

  /** Deleting a character distributes over concatenation. */
  lemma {:induction false} RemoveCharAppend(a: string, b: string, c: char)
    ensures RemoveChar(a + b, c) == RemoveChar(a, c) + RemoveChar(b, c)
    decreases |a|
  {
    if |a| == 0 {
      assert a + b == b;
    } else {
      RemoveCharAppend(a[1..], b, c);
      assert (a + b)[0] == a[0] && (a + b)[1..] == a[1..] + b;
    }
  }

  /** The time stamp is the ISO text with its colons removed, followed by
      `Z`: it holds no colon, ends in `Z`, and keeps every other character. */
  lemma TimeStampShape(iso: string)
    ensures MakeTimeStamp(iso) == RemoveChar(iso, ':') + "Z"
    ensures ':' !in MakeTimeStamp(iso)
    ensures |MakeTimeStamp(iso)| > 0 && MakeTimeStamp(iso)[|MakeTimeStamp(iso)| - 1] == 'Z'
    ensures |MakeTimeStamp(iso)| == |iso| + 1 - multiset(iso)[':']
    ensures forall d :: d != ':' && d != 'Z' ==> multiset(MakeTimeStamp(iso))[d] == multiset(iso)[d]
  {
    RemoveCharAppend(iso, "Z", ':');
    assert RemoveChar("Z", ':') == "Z";
    RemoveCharContents(iso, ':');
    RemoveCharContents(iso + "Z", ':');
    assert multiset(iso + "Z") == multiset(iso) + multiset{'Z'};
  }

  /** Deleting a character that does not occur changes nothing. */
  lemma {:induction false} RemoveCharAbsent(s: string, c: char)
    requires c !in s
    ensures RemoveChar(s, c) == s
    decreases |s|
  {
    if |s| > 0 {
      assert s[0] != c;
      assert c !in s[1..];
      RemoveCharAbsent(s[1..], c);
    }
  }

  /** Stamping is idempotent on the colon-free part: a stamp taken of a
      stamp's body gives the same stamp back. */
  lemma TimeStampStable(iso: string)
    ensures MakeTimeStamp(RemoveChar(iso, ':')) == MakeTimeStamp(iso)
  {
    TimeStampShape(iso);
    RemoveCharContents(iso, ':');
    TimeStampShape(RemoveChar(iso, ':'));
    RemoveCharAbsent(RemoveChar(iso, ':'), ':');
  }
}
