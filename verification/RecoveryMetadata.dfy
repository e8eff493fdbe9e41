/** Normalizing the metadata of a recovery manifest (controller/guardian/backup.py:758-806). */
module RecoveryMetadata {
  import opened Base
  import opened StringOrder

  datatype Metadata = Metadata(
    commit: string, revisions: seq<string>, configuration: seq<string>, certificates: seq<string>,
    secrets: seq<string>, containsSecrets: bool)

  /** Hexadecimal digits, and their lower-case form. */
  predicate Hex(c: char) {
    'A' <= c <= 'F' || 'a' <= c <= 'f' || '0' <= c <= '9'
  }

  function LowerHex(c: char): char {
    if 'A' <= c <= 'F' then ((c as int) + 32) as char else c
  }

  function Lower(s: string): string {
    seq(|s|, i requires 0 <= i < |s| => LowerHex(s[i]))
  }

  predicate AllHex(s: string, length: nat) {
    |s| == length && forall c <- s :: Hex(c)
  }

  lemma LowerIsHex(s: string, length: nat)
    requires AllHex(s, length)
    ensures AllHex(Lower(s), length) && Lower(Lower(s)) == Lower(s)
  {
    forall c | c in Lower(s) ensures Hex(c) {
      var i :| 0 <= i < |s| && c == LowerHex(s[i]);
      assert s[i] in s;
    }
    forall i | 0 <= i < |s| ensures LowerHex(LowerHex(s[i])) == LowerHex(s[i]) {
      assert s[i] in s;
    }
  }

  // ---------------------------------------------------------------- sorted sets

  function InsertOnce(x: string, s: seq<string>): seq<string> {
    if s == [] then [x]
    else if s[0] == x then s
    else if Less(x, s[0]) then [x] + s
    else [s[0]] + InsertOnce(x, s[1..])
  }

  /** The distinct members in increasing order. */
  function SortedSet(s: seq<string>): seq<string> {
    if s == [] then [] else InsertOnce(s[0], SortedSet(s[1..]))
  }

  predicate Increasing(s: seq<string>) {
    |s| > 1 ==> Less(s[0], s[1]) && Increasing(s[1..])
  }

  lemma {:induction false} InsertOnceSorts(x: string, s: seq<string>)
    requires Increasing(s)
    ensures var r := InsertOnce(x, s);
            && Increasing(r) && (forall y :: y in r <==> y in s || y == x)
            && r != [] && (r[0] == x || (s != [] && r[0] == s[0] && (s[0] == x || Less(s[0], x))))
  {
    if s != [] && s[0] != x && !Less(x, s[0]) {
      LessTotal(x, s[0]);
      InsertOnceSorts(x, s[1..]);
      var rest := InsertOnce(x, s[1..]);
      assert ([s[0]] + rest)[1..] == rest;
      assert s == [s[0]] + s[1..];
    }
  }

  /** Sorting keeps exactly the members, each once, in increasing order. */
  lemma {:induction false} SortedSetSorts(s: seq<string>)
    ensures Increasing(SortedSet(s)) && forall y :: y in SortedSet(s) <==> y in s
  {
    if s != [] {
      SortedSetSorts(s[1..]);
      InsertOnceSorts(s[0], SortedSet(s[1..]));
      assert s == [s[0]] + s[1..];
    }
  }

  lemma {:induction false} SortedSetOfSorted(s: seq<string>)
    requires Increasing(s)
    ensures SortedSet(s) == s
  {
    if s != [] {
      SortedSetOfSorted(s[1..]);
      if |s| > 1 {
        LessAsymmetric(s[0], s[1]);
      }
      assert s == [s[0]] + s[1..];
    }
  }

  lemma {:induction false} FirstIsLeast(s: seq<string>, x: string)
    requires Increasing(s) && x in s && x != s[0]
    ensures Less(s[0], x)
  {
    assert s == [s[0]] + s[1..];
    if x != s[1] {
      FirstIsLeast(s[1..], x);
      LessTransitive(s[0], s[1], x);
    }
  }

  lemma NoMembers(s: seq<string>, t: seq<string>)
    requires forall x :: x in s <==> x in t
    ensures s == [] ==> t == []
  {
    if t != [] {
      assert t[0] in t;
    }
  }

  lemma {:induction false} IncreasingIsUnique(s: seq<string>, t: seq<string>)
    requires Increasing(s) && Increasing(t) && forall x :: x in s <==> x in t
    ensures s == t
  {
    if s == [] || t == [] {
      NoMembers(s, t);
      NoMembers(t, s);
    } else {
      assert s == [s[0]] + s[1..] && t == [t[0]] + t[1..];
      SameFirst(s, t);
      forall x ensures x in s[1..] <==> x in t[1..] {
        TailMembers(s, x);
        TailMembers(t, x);
      }
      IncreasingIsUnique(s[1..], t[1..]);
    }
  }

  lemma SameFirst(s: seq<string>, t: seq<string>)
    requires Increasing(s) && Increasing(t) && s != [] && t != [] && forall x :: x in s <==> x in t
    ensures s[0] == t[0]
  {
    assert s[0] in t && t[0] in s;
    if s[0] != t[0] {
      FirstIsLeast(s, t[0]);
      FirstIsLeast(t, s[0]);
      LessAsymmetric(s[0], t[0]);
    }
  }

  lemma TailMembers(s: seq<string>, x: string)
    requires Increasing(s) && s != []
    ensures x in s[1..] <==> x in s && x != s[0]
  {
    assert s == [s[0]] + s[1..];
    if s[0] in s[1..] {
      HeadNotInTail(s);
    }
  }

  lemma HeadNotInTail(s: seq<string>)
    requires Increasing(s) && s != []
    ensures s[0] !in s[1..]
  {
    if s[0] in s[1..] {
      if s[0] != s[1] {
        FirstIsLeast(s[1..], s[0]);
        LessTransitive(s[0], s[1], s[0]);
      }
      LessAsymmetric(s[0], s[0]);
    }
  }

  // ---------------------------------------------------------------- normalization

  /** A reference: 1 to 512 characters, none of a control-like category. */
  predicate ReferenceOk(value: string, control: char -> bool) {
    1 <= |value| <= 512 && forall c <- value :: !control(c)
  }

  predicate ReferencesOk(values: seq<string>, control: char -> bool) {
    forall v <- values :: ReferenceOk(v, control)
  }

  predicate CommitOk(commit: string) {
    AllHex(commit, 40) && exists c <- commit :: c != '0'
  }

  predicate Acceptable(m: Metadata, control: char -> bool) {
    && !m.containsSecrets
    && CommitOk(m.commit)
    && m.revisions != [] && m.secrets != []
    && ReferencesOk(m.revisions, control) && ReferencesOk(m.configuration, control)
    && ReferencesOk(m.certificates, control) && ReferencesOk(m.secrets, control)
  }

  function Normalize(m: Metadata, control: char -> bool): Option<Metadata> {
    if Acceptable(m, control) then
      Some(Metadata(Lower(m.commit), SortedSet(m.revisions), SortedSet(m.configuration),
                    SortedSet(m.certificates), SortedSet(m.secrets), false))
    else None
  }

  lemma SortedSetKeepsReferences(values: seq<string>, control: char -> bool)
    ensures ReferencesOk(values, control) <==> ReferencesOk(SortedSet(values), control)
    ensures values == [] <==> SortedSet(values) == []
    ensures SortedSet(SortedSet(values)) == SortedSet(values)
  {
    SortedSetSorts(values);
    SortedSetOfSorted(SortedSet(values));
    if values != [] {
      assert values[0] in SortedSet(values);
    } else {
      assert SortedSet(values) == [];
    }
    forall v ensures v in values <==> v in SortedSet(values) {
    }
  }

  lemma CommitNormalizes(commit: string)
    requires CommitOk(commit)
    ensures CommitOk(Lower(commit)) && Lower(Lower(commit)) == Lower(commit)
  {
    LowerIsHex(commit, 40);
    var c :| c in commit && c != '0';
    var i :| 0 <= i < |commit| && commit[i] == c;
    assert Lower(commit)[i] == LowerHex(c) != '0';
    assert LowerHex(c) in Lower(commit);
  }

  /** Main result: normalizing twice is normalizing once. */
  lemma NormalizeIdempotent(m: Metadata, control: char -> bool)
    requires Normalize(m, control).Some?
    ensures Normalize(Normalize(m, control).value, control) == Normalize(m, control)
  {
    CommitNormalizes(m.commit);
    SortedSetKeepsReferences(m.revisions, control);
    SortedSetKeepsReferences(m.configuration, control);
    SortedSetKeepsReferences(m.certificates, control);
    SortedSetKeepsReferences(m.secrets, control);
  }

  /** Normalizing forgets order and repetition: lists with the same members give the same list. */
  lemma NormalizeForgetsOrder(s: seq<string>, t: seq<string>)
    ensures SortedSet(s) == SortedSet(t) <==> forall x :: x in s <==> x in t
  {
    SortedSetSorts(s);
    SortedSetSorts(t);
    if SortedSet(s) == SortedSet(t) {
      forall x ensures x in s <==> x in t {
        assert x in SortedSet(s) <==> x in SortedSet(t);
      }
    }
    if forall x :: x in s <==> x in t {
      IncreasingIsUnique(SortedSet(s), SortedSet(t));
    }
  }
}
