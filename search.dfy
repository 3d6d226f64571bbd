/**
 * The name-or-phone search predicate that the member page and the attendance
 * page both apply: `name.toLowerCase().includes(term.toLowerCase()) ||
 * phone.includes(term)`.
 */
module Search {

  /** `String.prototype.toLowerCase` on one character (ASCII letters only). */
  function LowerChar(c: char): (r: char)
    ensures 'A' <= c <= 'Z' ==> r as int == c as int + 32
    ensures !('A' <= c <= 'Z') ==> r == c
  {
    if 'A' <= c <= 'Z' then (c as int + 32) as char else c
  }

  /** `String.prototype.toLowerCase`: every character lowered, length kept. */
  function ToLower(s: string): (r: string)
    ensures |r| == |s|
    ensures forall i :: 0 <= i < |s| ==> r[i] == LowerChar(s[i])
  {
    if s == [] then [] else [LowerChar(s[0])] + ToLower(s[1..])
  }

  /** `t` is a prefix of `s`. */
  predicate IsPrefix(t: string, s: string)
  {
    |t| <= |s| && s[..|t|] == t
  }

  /** `s.includes(t)`, searching from the left one position at a time. */
  predicate Includes(s: string, t: string)
    ensures Includes(s, t) ==> |t| <= |s|
    decreases |s|
  {
    IsPrefix(t, s) || (s != [] && Includes(s[1..], t))
  }

  /** `t` occurs in `s` starting at position `i`. */
  predicate OccursAt(s: string, t: string, i: int)
  {
    0 <= i <= |s| - |t| && s[i..i + |t|] == t
  }

  /** `includes` holds exactly when `t` occurs in `s` at some position. */
  lemma {:induction false} IncludesAt(s: string, t: string)
    ensures Includes(s, t) <==> exists i :: OccursAt(s, t, i)
  {
    if IsPrefix(t, s) {
      assert OccursAt(s, t, 0);
    } else if s == [] {
      assert forall i :: !OccursAt(s, t, i);
    } else {
      IncludesAt(s[1..], t);
      if exists i :: OccursAt(s, t, i) {
        var i :| OccursAt(s, t, i);
        assert i != 0;
        assert OccursAt(s[1..], t, i - 1);
      }
      if exists j :: OccursAt(s[1..], t, j) {
        var j :| OccursAt(s[1..], t, j);
        assert s[1..][j..j + |t|] == s[j + 1..j + 1 + |t|];
        assert OccursAt(s, t, j + 1);
      }
    }
  }

  /** The empty string is included in every string. */
  lemma IncludesEmpty(s: string)
    ensures Includes(s, [])
  {
    assert IsPrefix([], s);
  }

  /** The member search predicate: case-insensitive on the name, exact on the phone. */
  predicate Matches(name: string, phone: string, term: string)
    ensures Matches(name, phone, term) ==> |term| <= |name| || |term| <= |phone|
  {
    Includes(ToLower(name), ToLower(term)) || Includes(phone, term)
  }

  /** An empty term matches every record. */
  lemma EmptyTermMatches(name: string, phone: string)
    ensures Matches(name, phone, [])
  {
    IncludesEmpty(ToLower(name));
  }

  /**
   * The name test ignores the case of ASCII letters in the term and in the
   * name: lowering either first changes nothing.
   */
  lemma NameTestIgnoresCase(name: string, term: string)
    ensures Includes(ToLower(name), ToLower(term)) <==> Includes(ToLower(name), ToLower(ToLower(term)))
    ensures Includes(ToLower(name), ToLower(term)) <==> Includes(ToLower(ToLower(name)), ToLower(term))
  {
    LowerIdempotent(term);
    LowerIdempotent(name);
  }

  lemma {:induction false} LowerIdempotent(s: string)
    ensures ToLower(ToLower(s)) == ToLower(s)
  {
    if s != [] {
      LowerIdempotent(s[1..]);
    }
  }
}
