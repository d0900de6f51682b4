/** Small shared vocabulary: optional values and the whitespace trimming of Python's str.strip. */
module Common {

  datatype Option<+T> = None | Some(value: T)

  function Min(a: int, b: int): int {
    if a <= b then a else b
  }

  function Max(a: int, b: int): int {
    if a >= b then a else b
  }

  /** ASCII whitespace, as str.strip sees it. */
  predicate IsSpace(c: char) {
    c == ' ' || '\t' <= c <= '\r' || '\U{001c}' <= c <= '\U{001f}'
  }

  function StripLeft(s: string): string {
    if s != [] && IsSpace(s[0]) then StripLeft(s[1..]) else s
  }

  function StripRight(s: string): string {
    if s != [] && IsSpace(s[|s| - 1]) then StripRight(s[..|s| - 1]) else s
  }

  function Strip(s: string): string {
    StripRight(StripLeft(s))
  }

  lemma {:induction false} StripRightKeepsHead(s: string)
    requires s == [] || !IsSpace(s[0])
    ensures StripRight(s) == [] || !IsSpace(StripRight(s)[0])
    ensures StripRight(s) == [] || !IsSpace(StripRight(s)[|StripRight(s)| - 1])
  {
    if s != [] && IsSpace(s[|s| - 1]) {
      StripRightKeepsHead(s[..|s| - 1]);
    }
  }

  lemma {:induction false} StripLeftHead(s: string)
    ensures StripLeft(s) == [] || !IsSpace(StripLeft(s)[0])
  {
    if s != [] && IsSpace(s[0]) {
      StripLeftHead(s[1..]);
    }
  }

  /** Trimming twice is trimming once. */
  lemma {:induction false} StripIdempotent(s: string)
    ensures Strip(Strip(s)) == Strip(s)
  {
    StripLeftHead(s);
    StripRightKeepsHead(StripLeft(s));
  }

  /** Trimming leaves nothing exactly when every character is whitespace. */
  lemma {:induction false} StripEmpty(s: string)
    ensures Strip(s) == [] <==> forall k :: 0 <= k < |s| ==> IsSpace(s[k])
  {
    if s != [] && IsSpace(s[0]) {
      StripEmpty(s[1..]);
      if forall k :: 0 <= k < |s[1..]| ==> IsSpace(s[1..][k]) {
        assert forall k :: 0 < k < |s| ==> s[k] == s[1..][k - 1];
      }
    } else if s != [] {
      StripRightNonEmpty(s);
    }
  }

  lemma {:induction false} StripRightNonEmpty(s: string)
    requires s != [] && !IsSpace(s[0])
    ensures StripRight(s) != []
  {
    if IsSpace(s[|s| - 1]) {
      StripRightNonEmpty(s[..|s| - 1]);
    }
  }
}
