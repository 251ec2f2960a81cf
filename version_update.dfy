/** The release-number tool: a batch file holds `set MAJOR=`, `set MINOR=`,
    `set PATCH=` and `set BUILD=` lines; one of the four counters is bumped
    (the lower ones reset) and the first occurrence of each line is rewritten. */
module VersionUpdate {
  import opened Wrappers
  import opened Text

  datatype Version = Version(major: nat, minor: nat, patch: nat, build: nat)

  /** Why the tool exits without writing. */
  datatype VersionError = MissingVariable | InvalidPart

  // ---------------------------------------------------------------- the bump rule

  /** The counters from the most significant (0, `major`) to the least (3, `build`). */
  function Counter(v: Version, i: nat): nat
    requires i < 4
  {
    if i == 0 then v.major else if i == 1 then v.minor else if i == 2 then v.patch else v.build
  }

  /** The counter a part name bumps, if it names one. */
  function Rank(part: string): Option<nat> {
    if part == "major" then Some(0) else if part == "minor" then Some(1)
    else if part == "patch" then Some(2) else if part == "build" then Some(3)
    else None
  }

  /** `a` comes after `b` in release order (the counters compared most significant first). */
  predicate Later(a: Version, b: Version) {
    exists i :: 0 <= i < 4 && Counter(a, i) > Counter(b, i) && forall j :: 0 <= j < i ==> Counter(a, j) == Counter(b, j)
  }

  /** The branches of `increment_version`: the named counter goes up by one, the
      ones above it are kept and the ones below it restart at zero; any other
      part name is an error. */
  function Bump(part: string, v: Version): (r: Result<Version, VersionError>)
    ensures r.Err? <==> Rank(part).None?
    ensures r.Err? ==> r.error == InvalidPart
    ensures r.Ok? ==> var k := Rank(part).value;
              && k < 4
              && Counter(r.value, k) == Counter(v, k) + 1
              && (forall j :: 0 <= j < k ==> Counter(r.value, j) == Counter(v, j))
              && (forall j :: k < j < 4 ==> Counter(r.value, j) == 0)
  {
    if part == "major" then Ok(Version(v.major + 1, 0, 0, 0))
    else if part == "minor" then Ok(Version(v.major, v.minor + 1, 0, 0))
    else if part == "patch" then Ok(Version(v.major, v.minor, v.patch + 1, 0))
    else if part == "build" then Ok(Version(v.major, v.minor, v.patch, v.build + 1))
    else Err(InvalidPart)
  }

  /** Every bump moves the release forward. */
  lemma {:induction false} BumpIsLater(part: string, v: Version)
    requires Bump(part, v).Ok?
    ensures Later(Bump(part, v).value, v)
  {
    var k := Rank(part).value;
    var r := Bump(part, v).value;
    assert Counter(r, k) > Counter(v, k);
  }

  // ---------------------------------------------------------------- the `set X=<digits>` lines

  /** The four variable names. */
  predicate IsKey(key: string) {
    key == "MAJOR" || key == "MINOR" || key == "PATCH" || key == "BUILD"
  }

  /** The literal part of the pattern `set KEY=\d+`. */
  function Head(key: string): string {
    "set " + key + "="
  }

  /** `set KEY=` followed by at least one digit starts at `q`. */
  predicate MatchAt(s: string, key: string, q: nat) {
    q + |Head(key)| < |s| && s[q..q + |Head(key)|] == Head(key) && IsDigit(s[q + |Head(key)|])
  }

  /** The leftmost match at or after `q`, as `re.search` scans. */
  function FindFrom(s: string, key: string, q: nat): (r: Option<nat>)
    ensures r.Some? ==> q <= r.value && MatchAt(s, key, r.value)
    ensures r.Some? ==> forall j :: q <= j < r.value ==> !MatchAt(s, key, j)
    ensures r.None? ==> forall j :: q <= j ==> !MatchAt(s, key, j)
    decreases |s| - q
  {
    if q + |Head(key)| >= |s| then None
    else if MatchAt(s, key, q) then Some(q)
    else FindFrom(s, key, q + 1)
  }

  /** Where the greedy `\d+` after a match ends. */
  function DigitsEnd(s: string, i: nat): (j: nat)
    requires i <= |s|
    ensures i <= j <= |s|
    ensures forall k :: i <= k < j ==> IsDigit(s[k])
    ensures j < |s| ==> !IsDigit(s[j])
    decreases |s| - i
  {
    if i < |s| && IsDigit(s[i]) then DigitsEnd(s, i + 1) else i
  }

  /** `re.search(r"set KEY=(\d+)", s)`: the start of the match and the end of its digits. */
  function Search(s: string, key: string): (r: Option<(nat, nat)>)
    ensures r.Some? ==> MatchAt(s, key, r.value.0) && r.value.0 + |Head(key)| < r.value.1 <= |s|
  {
    match FindFrom(s, key, 0)
    case None => None
    case Some(p) => Some((p, DigitsEnd(s, p + |Head(key)| + 1)))
  }

  /** `int(match.group(1))`. */
  function ReadVar(s: string, key: string): Option<nat> {
    match Search(s, key)
    case None => None
    case Some((p, e)) => Some(DigitsValue(s[p + |Head(key)|..e]))
  }

  /** `re.sub(r"set KEY=\d+", f"set KEY={n}", s, count=1)`. */
  function Rewrite(s: string, key: string, n: nat): string {
    match Search(s, key)
    case None => s
    case Some((p, e)) => s[..p] + (Head(key) + NatToString(n)) + s[e..]
  }

  /** Only the first match changes: the text before and after it is kept. */
  lemma {:induction false} RewriteKeepsRest(s: string, key: string, n: nat)
    requires Search(s, key).Some?
    ensures var (p, e) := Search(s, key).value;
            var t, w := Rewrite(s, key, n), |Head(key)| + |NatToString(n)|;
            && p + w <= |t| && t[..p] == s[..p] && t[p + w..] == s[e..]
            && t[p..p + w] == Head(key) + NatToString(n)
  {
    var (p, e) := Search(s, key).value;
    var t, w := Rewrite(s, key, n), |Head(key)| + |NatToString(n)|;
    assert t == s[..p] + (Head(key) + NatToString(n)) + s[e..];
  }

  /** Without a match the text is unchanged. */
  lemma {:induction false} RewriteMissing(s: string, key: string, n: nat)
    requires Search(s, key).None?
    ensures Rewrite(s, key, n) == s
  {
  }

  /** The head of the pattern has its `s` only at the front and no digit at all. */
  lemma {:induction false} HeadChars(key: string)
    requires IsKey(key)
    ensures |Head(key)| == 10 && Head(key)[0] == 's'
    ensures forall d :: 0 < d < |Head(key)| ==> Head(key)[d] != 's'
    ensures forall d :: 0 <= d < |Head(key)| ==> !IsDigit(Head(key)[d])
  {
    var h := Head(key);
    assert h == ['s', 'e', 't', ' ', key[0], key[1], key[2], key[3], key[4], '='];
  }

  /** After the rewrite the first match is still where the old one was. */
  lemma {:induction false} FirstMatchKept(s: string, t: string, key: string, p: nat)
    requires IsKey(key) && p < |s| && p < |t| && s[..p] == t[..p]
    requires MatchAt(s, key, p) && MatchAt(t, key, p)
    requires forall j :: 0 <= j < p ==> !MatchAt(s, key, j)
    ensures forall j :: 0 <= j < p ==> !MatchAt(t, key, j)
  {
    var h := Head(key);
    HeadChars(key);
    assert t[p] == 's' by {
      assert t[p] == t[p..p + |h|][0];
    }
    forall j | 0 <= j < p ensures !MatchAt(t, key, j) {
      if j + |h| < p {
        assert t[j..j + |h| + 1] == s[j..j + |h| + 1] by {
          assert t[j..j + |h| + 1] == t[..p][j..j + |h| + 1] && s[j..j + |h| + 1] == s[..p][j..j + |h| + 1];
        }
        assert t[j..j + |h|] == t[j..j + |h| + 1][..|h|] && s[j..j + |h|] == s[j..j + |h| + 1][..|h|];
        assert t[j + |h|] == t[j..j + |h| + 1][|h|] && s[j + |h|] == s[j..j + |h| + 1][|h|];
        assert !MatchAt(s, key, j);
        assert !MatchAt(t, key, j);
      } else if j + |h| < |t| {
        var d := p - j;
        if d < |h| {
          assert t[j..j + |h|][d] == t[p] != h[d];
          assert !MatchAt(t, key, j);
        } else {
          assert t[j + |h|] == 's';
          assert !MatchAt(t, key, j);
        }
      }
    }
  }

  /** The number just written is the number read back. */
  lemma {:induction false} RewriteReadBack(s: string, key: string, n: nat)
    requires IsKey(key) && Search(s, key).Some?
    ensures ReadVar(Rewrite(s, key, n), key) == Some(n)
  {
    var (p, e) := Search(s, key).value;
    var h, digits := Head(key), NatToString(n);
    var t := Rewrite(s, key, n);
    var w := |h| + |digits|;
    RewriteKeepsRest(s, key, n);
    HeadChars(key);
    RewrittenAt(t, h, digits, p);
    assert p + w == |t| || !IsDigit(t[p + w]) by {
      if p + w < |t| {
        assert t[p + w] == t[p + w..][0] == s[e..][0] == s[e];
      }
    }
    assert MatchAt(t, key, p);
    FirstMatchKept(s, t, key, p);
    ReadAt(t, key, p, digits);
    DigitsOfNat(n);
  }

  /** The characters of a rewritten match. */
  lemma {:induction false} RewrittenAt(t: string, h: string, digits: string, p: nat)
    requires digits != [] && p + |h| + |digits| <= |t| && t[p..p + |h| + |digits|] == h + digits
    ensures t[p..p + |h|] == h && t[p + |h|..p + |h| + |digits|] == digits
    ensures forall k :: p + |h| <= k < p + |h| + |digits| ==> t[k] == digits[k - p - |h|]
  {
    var w := |h| + |digits|;
    assert t[p..p + |h|] == t[p..p + w][..|h|];
    assert t[p + |h|..p + w] == t[p..p + w][|h|..];
    forall k | p + |h| <= k < p + w ensures t[k] == digits[k - p - |h|] {
      assert t[k] == t[p..p + w][k - p];
    }
  }

  /** A first match at `p` whose digits are `digits` reads as their value. */
  lemma {:induction false} ReadAt(t: string, key: string, p: nat, digits: string)
    requires MatchAt(t, key, p) && forall j :: 0 <= j < p ==> !MatchAt(t, key, j)
    requires var i := p + |Head(key)|;
             && i + |digits| <= |t| && t[i..i + |digits|] == digits
             && (forall k :: 0 <= k < |digits| ==> IsDigit(digits[k]))
             && (i + |digits| == |t| || !IsDigit(t[i + |digits|]))
    ensures ReadVar(t, key) == Some(DigitsValue(digits))
  {
    var i := p + |Head(key)|;
    FindFromFirst(t, key, 0, p);
    forall k | i <= k < i + |digits| ensures IsDigit(t[k]) {
      assert t[k] == t[i..i + |digits|][k - i];
    }
    DigitsEndAt(t, i + 1, i + |digits|);
  }

  /** The scan from `q` stops at the first match. */
  lemma {:induction false} FindFromFirst(s: string, key: string, q: nat, p: nat)
    requires q <= p && MatchAt(s, key, p)
    requires forall j :: q <= j < p ==> !MatchAt(s, key, j)
    ensures FindFrom(s, key, q) == Some(p)
    decreases p - q
  {
    if q < p {
      FindFromFirst(s, key, q + 1, p);
    }
  }

  /** The greedy digit run from `i` ends at `j` when the digits stop there. */
  lemma {:induction false} DigitsEndAt(s: string, i: nat, j: nat)
    requires i <= j <= |s|
    requires forall k :: i <= k < j ==> IsDigit(s[k])
    requires j < |s| ==> !IsDigit(s[j])
    ensures DigitsEnd(s, i) == j
    decreases j - i
  {
    if i < j {
      DigitsEndAt(s, i + 1, j);
    }
  }

  // ---------------------------------------------------------------- one rewrite leaves the other lines alone

  /** A match of `set KEY=` and a digit, character by character. */
  lemma {:induction false} MatchChars(s: string, key: string, q: nat)
    requires IsKey(key)
    ensures MatchAt(s, key, q) <==> && q + 10 < |s|
                                    && (forall d :: 0 <= d < 10 ==> s[q + d] == Head(key)[d])
                                    && IsDigit(s[q + 10])
  {
    HeadChars(key);
    if q + 10 < |s| {
      if forall d :: 0 <= d < 10 ==> s[q + d] == Head(key)[d] {
        assert s[q..q + 10] == Head(key);
      }
      if s[q..q + 10] == Head(key) {
        forall d | 0 <= d < 10 ensures s[q + d] == Head(key)[d] {
          assert s[q + d] == s[q..q + 10][d];
        }
      }
    }
  }

  /** Two texts that agree on the eleven characters from `q` and from `r` match alike there. */
  lemma {:induction false} MatchSame(s: string, t: string, key: string, q: nat, r: nat)
    requires IsKey(key)
    requires q + 10 < |s| <==> r + 10 < |t|
    requires q + 10 < |s| ==> forall k :: q <= k <= q + 10 ==> s[k] == t[k - q + r]
    ensures MatchAt(s, key, q) <==> MatchAt(t, key, r)
  {
    HeadChars(key);
    if q + 10 < |s| {
      var u, v := s[q..q + 10], t[r..r + 10];
      forall d | 0 <= d < 10 ensures u[d] == v[d] {
        assert u[d] == s[q + d] == t[(q + d) - q + r] == v[d];
      }
      assert u == v;
      assert s[q + 10] == t[(q + 10) - q + r];
    }
  }

  /** Texts that agree before `p` match alike wherever a match ends before `p`. */
  lemma {:induction false} PrefixMatches(s: string, t: string, key: string, p: nat)
    requires IsKey(key) && p <= |s| && p <= |t| && forall k :: 0 <= k < p ==> t[k] == s[k]
    ensures forall j: nat :: j + 10 < p ==> (MatchAt(s, key, j) <==> MatchAt(t, key, j))
  {
    forall j: nat | j + 10 < p ensures MatchAt(s, key, j) <==> MatchAt(t, key, j) {
      MatchSame(s, t, key, j, j);
    }
  }

  /** Texts whose tails from `e` and from `e2` agree match alike along them. */
  lemma {:induction false} TailMatches(s: string, t: string, key: string, e: nat, e2: nat)
    requires IsKey(key) && e <= |s| && e2 <= |t| && |t| - e2 == |s| - e
    requires forall k :: e <= k < |s| ==> t[k - e + e2] == s[k]
    ensures forall j: nat :: e <= j ==> (MatchAt(s, key, j) <==> MatchAt(t, key, j - e + e2))
  {
    forall j: nat | e <= j ensures MatchAt(s, key, j) <==> MatchAt(t, key, j - e + e2) {
      forall k | j <= k <= j + 10 && k < |s| ensures s[k] == t[k - j + (j - e + e2)] {
        assert t[k - e + e2] == s[k];
      }
      MatchSame(s, t, key, j, j - e + e2);
    }
  }

  /** The heads of two different variables differ in their fifth or sixth character. */
  lemma {:induction false} HeadsDiffer(key: string, key2: string)
    requires IsKey(key) && IsKey(key2) && key != key2
    ensures Head(key)[4] != Head(key2)[4] || Head(key)[5] != Head(key2)[5]
  {
    HeadChars(key);
    HeadChars(key2);
    assert Head(key)[4] == key[0] && Head(key)[5] == key[1];
    assert Head(key2)[4] == key2[0] && Head(key2)[5] == key2[1];
  }

  /** No other variable matches from ten characters before a match of `key2` up to
      the end of its digits: its `s` and its digits fit no other head. */
  lemma {:induction false} MatchZone(s: string, key: string, key2: string, p: nat, e: nat)
    requires IsKey(key) && IsKey(key2) && key != key2
    requires MatchAt(s, key2, p) && p + 10 < e <= |s| && forall k :: p + 10 <= k < e ==> IsDigit(s[k])
    ensures forall j: nat :: p <= j + 10 && j < e ==> !MatchAt(s, key, j)
  {
    HeadChars(key);
    HeadChars(key2);
    MatchChars(s, key2, p);
    assert s[p] == 's';
    forall j: nat | p <= j + 10 && j < e ensures !MatchAt(s, key, j) {
      MatchChars(s, key, j);
      if j < p {
        var d := p - j;
        if d < 10 {
          assert s[j + d] == 's' && Head(key)[d] != 's';
        } else {
          assert !IsDigit(s[j + 10]);
        }
      } else if j == p {
        HeadsDiffer(key, key2);
        assert s[p + 4] == Head(key2)[4] && s[p + 5] == Head(key2)[5];
      } else if j < p + 10 {
        assert s[j] == Head(key2)[j - p] != 's';
      } else {
        assert IsDigit(s[j]);
      }
    }
  }

  /** Characters of two texts whose suffixes from `e` and from `e2` are equal. */
  lemma {:induction false} TailAgree(s: string, t: string, e: nat, e2: nat)
    requires e <= |s| && e2 <= |t| && t[e2..] == s[e..]
    ensures |t| - e2 == |s| - e
    ensures forall k :: e <= k < |s| ==> t[k - e + e2] == s[k]
  {
    forall k | e <= k < |s| ensures t[k - e + e2] == s[k] {
      assert t[k - e + e2] == t[e2..][k - e];
      assert s[k] == s[e..][k - e];
    }
  }

  /** Characters of two texts whose prefixes up to `p` are equal. */
  lemma {:induction false} PrefixAgree(s: string, t: string, p: nat)
    requires p <= |s| && p <= |t| && t[..p] == s[..p]
    ensures forall k :: 0 <= k < p ==> t[k] == s[k]
  {
    forall k | 0 <= k < p ensures t[k] == s[k] {
      assert t[k] == t[..p][k] && s[k] == s[..p][k];
    }
  }

  /** What the rewrite of `key2` leaves in place: the text before its match, its
      match (a new number), and the text after it, shifted. */
  lemma {:induction false} RewriteShape(s: string, t: string, key2: string, n: nat) returns (p: nat, e: nat, e2: nat)
    requires IsKey(key2) && Search(s, key2).Some? && t == Rewrite(s, key2, n)
    ensures Search(s, key2).value == (p, e)
    ensures Shifted(s, t, key2, p, e, e2)
  {
    p, e := Search(s, key2).value.0, Search(s, key2).value.1;
    var h, digits := Head(key2), NatToString(n);
    e2 := p + 10 + |digits|;
    HeadChars(key2);
    RewriteKeepsRest(s, key2, n);
    RewrittenAt(t, h, digits, p);
    assert MatchAt(t, key2, p);
    forall k | p + 10 <= k < e ensures IsDigit(s[k]) {
      if k > p + 10 {
        assert IsDigit(s[k]);
      }
    }
    forall k | p + 10 <= k < e2 ensures IsDigit(t[k]) {
      assert t[k] == digits[k - p - 10];
    }
    PrefixAgree(s, t, p);
    TailAgree(s, t, e, e2);
  }

  /** `t` is `s` with the line of `key2` at `p` (digits up to `e`) replaced by one
      whose digits run up to `e2`. */
  predicate Shifted(s: string, t: string, key2: string, p: nat, e: nat, e2: nat) {
    && p + 10 < e <= |s| && p + 10 < e2 <= |t| && |t| - e2 == |s| - e
    && MatchAt(s, key2, p) && MatchAt(t, key2, p)
    && (forall k :: p + 10 <= k < e ==> IsDigit(s[k]))
    && (forall k :: p + 10 <= k < e2 ==> IsDigit(t[k]))
    && (forall k :: 0 <= k < p ==> t[k] == s[k])
    && (forall k :: e <= k < |s| ==> t[k - e + e2] == s[k])
  }

  /** Rewriting the line of one variable leaves what `re.search` reads for any other. */
  lemma {:induction false} RewriteKeepsOther(s: string, key: string, key2: string, n: nat)
    requires IsKey(key) && IsKey(key2) && key != key2
    ensures ReadVar(Rewrite(s, key2, n), key) == ReadVar(s, key)
  {
    if Search(s, key2).Some? {
      var t := Rewrite(s, key2, n);
      var p, e, e2 := RewriteShape(s, t, key2, n);
      ShiftedKeepsOther(s, t, key, key2, p, e, e2);
    }
  }

  /** The shift argument: no match of `key` overlaps the rewritten line, and the
      matches before and after it correspond one to one. */
  lemma {:induction false} ShiftedKeepsOther(s: string, t: string, key: string, key2: string, p: nat, e: nat, e2: nat)
    requires IsKey(key) && IsKey(key2) && key != key2 && Shifted(s, t, key2, p, e, e2)
    ensures ReadVar(t, key) == ReadVar(s, key)
  {
    match FindFrom(s, key, 0)
    case None =>
      NoneKept(s, t, key, key2, p, e, e2);
    case Some(q) =>
      ReadFound(s, key, q);
      var e1 := DigitsEnd(s, q + 11);
      HeadChars(key2);
      assert s[p] == s[p..p + 10][0] && t[p] == t[p..p + 10][0];
      if q + 10 < p {
        FirstBefore(s, t, key, key2, p, e, e2, q);
        KeptBefore(s, t, key, q, p, e1);
      } else {
        FirstAfter(s, t, key, key2, p, e, e2, q);
        KeptAfter(s, t, key, q, p, e, e2, e1);
      }
  }

  /** Without a match in `s` there is none in `t`. */
  lemma {:induction false} NoneKept(s: string, t: string, key: string, key2: string, p: nat, e: nat, e2: nat)
    requires IsKey(key) && IsKey(key2) && key != key2 && Shifted(s, t, key2, p, e, e2)
    requires FindFrom(s, key, 0).None?
    ensures FindFrom(t, key, 0).None?
  {
    MatchZone(t, key, key2, p, e2);
    PrefixMatches(s, t, key, p);
    TailMatches(s, t, key, e, e2);
    forall j: nat ensures !MatchAt(t, key, j) {
      if j + 10 < p {
        assert !MatchAt(s, key, j);
      } else if j >= e2 {
        assert !MatchAt(s, key, j - e2 + e);
      }
    }
  }

  /** A first match that ends before the rewritten line is still the first. */
  lemma {:induction false} FirstBefore(s: string, t: string, key: string, key2: string, p: nat, e: nat, e2: nat, q: nat)
    requires IsKey(key) && IsKey(key2) && key != key2 && Shifted(s, t, key2, p, e, e2)
    requires FindFrom(s, key, 0) == Some(q) && q + 10 < p
    ensures FindFrom(t, key, 0) == Some(q)
  {
    PrefixMatches(s, t, key, p);
    assert MatchAt(t, key, q);
    FindFromFirst(t, key, 0, q);
  }

  /** A first match after the rewritten line moves with the tail and stays the first. */
  lemma {:induction false} FirstAfter(s: string, t: string, key: string, key2: string, p: nat, e: nat, e2: nat, q: nat)
    requires IsKey(key) && IsKey(key2) && key != key2 && Shifted(s, t, key2, p, e, e2)
    requires FindFrom(s, key, 0) == Some(q) && p <= q + 10
    ensures e <= q && FindFrom(t, key, 0) == Some(q - e + e2)
  {
    MatchZone(s, key, key2, p, e);
    MatchZone(t, key, key2, p, e2);
    PrefixMatches(s, t, key, p);
    TailMatches(s, t, key, e, e2);
    assert e <= q;
    var q2 := q - e + e2;
    forall j: nat | 0 <= j < q2 ensures !MatchAt(t, key, j) {
      if j + 10 < p {
        assert !MatchAt(s, key, j);
      } else if j >= e2 {
        assert !MatchAt(s, key, j - e2 + e);
      }
    }
    assert MatchAt(t, key, q2);
    FindFromFirst(t, key, 0, q2);
  }

  /** What `re.search` reads from its first match at `q`. */
  lemma {:induction false} ReadFound(s: string, key: string, q: nat)
    requires IsKey(key) && FindFrom(s, key, 0) == Some(q)
    ensures q + 11 <= |s|
    ensures ReadVar(s, key) == Some(DigitsValue(s[q + 10..DigitsEnd(s, q + 11)]))
  {
    HeadChars(key);
  }

  /** `ReadAt` for one of the four variables, whose head is ten characters long. */
  lemma {:induction false} ReadAtKey(t: string, key: string, p: nat, digits: string)
    requires IsKey(key) && FindFrom(t, key, 0) == Some(p)
    requires && p + 10 + |digits| <= |t| && t[p + 10..p + 10 + |digits|] == digits
             && (forall k :: 0 <= k < |digits| ==> IsDigit(digits[k]))
             && (p + 10 + |digits| == |t| || !IsDigit(t[p + 10 + |digits|]))
    ensures ReadVar(t, key) == Some(DigitsValue(digits))
  {
    HeadChars(key);
    ReadAt(t, key, p, digits);
  }

  /** The digits `re.search` captures after a match at `q`. */
  lemma {:induction false} CapturedDigits(s: string, key: string, q: nat)
    requires IsKey(key) && MatchAt(s, key, q)
    ensures q + 11 <= |s|
    ensures var ds := s[q + 10..DigitsEnd(s, q + 11)];
            ds != [] && forall k :: 0 <= k < |ds| ==> IsDigit(ds[k])
  {
    HeadChars(key);
    var ds := s[q + 10..DigitsEnd(s, q + 11)];
    forall k | 0 <= k < |ds| ensures IsDigit(ds[k]) {
      assert ds[k] == s[q + 10 + k];
    }
  }

  /** Two texts that agree on `[i, j)` have the same slice there. */
  lemma {:induction false} SameSlice(s: string, t: string, i: nat, j: nat)
    requires i <= j <= |s| && j <= |t| && forall k :: i <= k < j ==> t[k] == s[k]
    ensures t[i..j] == s[i..j]
  {
  }

  /** Two texts whose tails from `e` and from `e2` agree have the same slices along them. */
  lemma {:induction false} ShiftedSlice(s: string, t: string, e: nat, e2: nat, i: nat, j: nat, i2: nat)
    requires e <= i <= j <= |s| && |t| - e2 == |s| - e && e2 <= |t| && i2 == i - e + e2
    requires forall k :: e <= k < |s| ==> t[k - e + e2] == s[k]
    ensures i2 + (j - i) <= |t| && t[i2..i2 + (j - i)] == s[i..j]
  {
    forall k | 0 <= k < j - i ensures t[i2..i2 + (j - i)][k] == s[i..j][k] {
      assert t[(i + k) - e + e2] == s[i + k];
    }
  }

  /** The first match lies before the rewritten line: its digits stay put. */
  lemma {:induction false} KeptBefore(s: string, t: string, key: string, q: nat, p: nat, e1: nat)
    requires IsKey(key) && FindFrom(s, key, 0) == Some(q) && FindFrom(t, key, 0) == Some(q)
    requires q + 10 < p < |t| && p < |s| && e1 == DigitsEnd(s, q + 11) && !IsDigit(s[p]) && !IsDigit(t[p])
    requires forall k :: 0 <= k < p ==> t[k] == s[k]
    ensures ReadVar(t, key) == Some(DigitsValue(s[q + 10..e1]))
  {
    CapturedDigits(s, key, q);
    var ds := s[q + 10..e1];
    assert e1 <= p;
    SameSlice(s, t, q + 10, e1);
    assert e1 < p ==> t[e1] == s[e1];
    ReadAtKey(t, key, q, ds);
  }

  /** A run of digits ending at `j` in `s` is one ending at the shifted index in `t`. */
  lemma {:induction false} ShiftedRun(s: string, t: string, e: nat, e2: nat, i: nat, j: nat, i2: nat)
    requires e <= i <= j <= |s| && |t| - e2 == |s| - e && e2 <= |t| && i2 == i - e + e2
    requires forall k :: e <= k < |s| ==> t[k - e + e2] == s[k]
    requires j < |s| ==> !IsDigit(s[j])
    ensures i2 + (j - i) <= |t| && t[i2..i2 + (j - i)] == s[i..j]
    ensures i2 + (j - i) == |t| || !IsDigit(t[i2 + (j - i)])
  {
    ShiftedSlice(s, t, e, e2, i, j, i2);
    if j < |s| {
      assert t[j - e + e2] == s[j];
    }
  }

  /** The first match lies after the rewritten line: its digits move with the tail. */
  lemma {:induction false} KeptAfter(s: string, t: string, key: string, q: nat, p: nat, e: nat, e2: nat, e1: nat)
    requires IsKey(key) && FindFrom(s, key, 0) == Some(q) && e <= q && FindFrom(t, key, 0) == Some(q - e + e2)
    requires e <= |s| && e2 <= |t| && |t| - e2 == |s| - e && e1 == DigitsEnd(s, q + 11)
    requires forall k :: e <= k < |s| ==> t[k - e + e2] == s[k]
    ensures ReadVar(t, key) == Some(DigitsValue(s[q + 10..e1]))
  {
    CapturedDigits(s, key, q);
    var q2 := q - e + e2;
    ShiftedRun(s, t, e, e2, q + 10, e1, q2 + 10);
    ReadAtKey(t, key, q2, s[q + 10..e1]);
  }

  // ---------------------------------------------------------------- the whole update

  /** The four counters the batch file holds, if all four lines are there. */
  function ReadVersion(content: string): (r: Option<Version>)
    ensures r.Some? <==> && ReadVar(content, "MAJOR").Some? && ReadVar(content, "MINOR").Some?
                         && ReadVar(content, "PATCH").Some? && ReadVar(content, "BUILD").Some?
    ensures r.Some? ==> && Some(r.value.major) == ReadVar(content, "MAJOR") && Some(r.value.minor) == ReadVar(content, "MINOR")
                        && Some(r.value.patch) == ReadVar(content, "PATCH") && Some(r.value.build) == ReadVar(content, "BUILD")
  {
    match (ReadVar(content, "MAJOR"), ReadVar(content, "MINOR"), ReadVar(content, "PATCH"), ReadVar(content, "BUILD"))
    case (Some(major), Some(minor), Some(patch), Some(build)) => Some(Version(major, minor, patch, build))
    case _ => None
  }

  /** `increment_version` without the file: the new file text, or why nothing is written. */
  function UpdateContent(content: string, part: string): (r: Result<(string, Version), VersionError>)
    ensures ReadVersion(content).None? ==> r == Err(MissingVariable)
    ensures ReadVersion(content).Some? && Rank(part).None? ==> r == Err(InvalidPart)
    ensures r.Ok? ==> Bump(part, ReadVersion(content).value) == Ok(r.value.1)
  {
    match ReadVersion(content)
    case None => Err(MissingVariable)
    case Some(v) =>
      match Bump(part, v)
      case Err(e) => Err(e)
      case Ok(w) =>
        Ok((Rewrites(content, w).3, w))
  }

  /** The text after each of the four `re.sub` calls, in their order. */
  function Rewrites(content: string, w: Version): (string, string, string, string) {
    var t1 := Rewrite(content, "MAJOR", w.major);
    var t2 := Rewrite(t1, "MINOR", w.minor);
    var t3 := Rewrite(t2, "PATCH", w.patch);
    (t1, t2, t3, Rewrite(t3, "BUILD", w.build))
  }

  /** `t` is `s` with the digits of its first `set KEY=` line replaced by those of `n`. */
  predicate DigitsOnly(s: string, t: string, key: string, n: nat) {
    && Search(s, key).Some?
    && t == s[..Search(s, key).value.0 + |Head(key)|] + NatToString(n) + s[Search(s, key).value.1..]
  }

  /** One `re.sub` with `count=1` replaces the digits of the first match and nothing else. */
  lemma {:induction false} RewriteDigitsOnly(s: string, key: string, n: nat)
    requires Search(s, key).Some?
    ensures DigitsOnly(s, Rewrite(s, key, n), key, n)
  {
    var p, e := Search(s, key).value.0, Search(s, key).value.1;
    var i := p + |Head(key)|;
    assert s[..i] == s[..p] + s[p..i];
    assert Rewrite(s, key, n) == s[..p] + (Head(key) + NatToString(n)) + s[e..];
    Regroup(s[..p], Head(key), NatToString(n), s[e..], s[..i]);
  }

  /** `a + (h + d) + c` regrouped around `x == a + h`. */
  lemma {:induction false} Regroup(a: string, h: string, d: string, c: string, x: string)
    requires x == a + h
    ensures a + (h + d) + c == x + d + c
  {
    assert a + (h + d) == (a + h) + d;
  }

  /** A file with all four lines has a first match for each of them. */
  lemma {:induction false} FoundOf(s: string, key: string)
    requires IsKey(key) && ReadVersion(s).Some?
    ensures Search(s, key).Some?
  {
  }

  /** One rewrite, seen through all four searches: its own variable now reads `n`,
      the other three read what they read before. */
  lemma {:induction false} StageReads(s: string, key: string, n: nat, v: Version)
    requires IsKey(key) && ReadVersion(s) == Some(v)
    ensures var r := ReadVersion(Rewrite(s, key, n));
            && (key == "MAJOR" ==> r == Some(v.(major := n))) && (key == "MINOR" ==> r == Some(v.(minor := n)))
            && (key == "PATCH" ==> r == Some(v.(patch := n))) && (key == "BUILD" ==> r == Some(v.(build := n)))
  {
    FoundOf(s, key);
    RewriteReadBack(s, key, n);
    if key != "MAJOR" {
      RewriteKeepsOther(s, "MAJOR", key, n);
    }
    if key != "MINOR" {
      RewriteKeepsOther(s, "MINOR", key, n);
    }
    if key != "PATCH" {
      RewriteKeepsOther(s, "PATCH", key, n);
    }
    if key != "BUILD" {
      RewriteKeepsOther(s, "BUILD", key, n);
    }
  }

  /** A successful update writes the text after the four rewrites with the bumped version. */
  lemma {:induction false} UpdateParts(content: string, part: string)
    requires UpdateContent(content, part).Ok?
    ensures ReadVersion(content).Some?
    ensures UpdateContent(content, part).value.0 == Rewrites(content, UpdateContent(content, part).value.1).3
  {
  }

  /** Each of the four `re.sub` calls of a successful update changes only the digits of
      its own variable's first line, to the bumped number: the rest of the file is kept. */
  lemma {:induction false} UpdateDigitsOnly(content: string, part: string)
    requires UpdateContent(content, part).Ok?
    ensures var (t, w) := UpdateContent(content, part).value;
            var (t1, t2, t3, t4) := Rewrites(content, w);
            && t4 == t
            && DigitsOnly(content, t1, "MAJOR", w.major) && DigitsOnly(t1, t2, "MINOR", w.minor)
            && DigitsOnly(t2, t3, "PATCH", w.patch) && DigitsOnly(t3, t4, "BUILD", w.build)
  {
    UpdateParts(content, part);
    RewritesDigitsOnly(content, UpdateContent(content, part).value.1);
  }

  /** The four rewrites of a file that has all four lines, one step at a time. */
  lemma {:induction false} RewritesDigitsOnly(content: string, w: Version)
    requires ReadVersion(content).Some?
    ensures var (t1, t2, t3, t4) := Rewrites(content, w);
            && DigitsOnly(content, t1, "MAJOR", w.major) && DigitsOnly(t1, t2, "MINOR", w.minor)
            && DigitsOnly(t2, t3, "PATCH", w.patch) && DigitsOnly(t3, t4, "BUILD", w.build)
  {
    var v0 := ReadVersion(content).value;
    var t1 := Rewrite(content, "MAJOR", w.major);
    StageReads(content, "MAJOR", w.major, v0);
    var v1 := v0.(major := w.major);
    var t2 := Rewrite(t1, "MINOR", w.minor);
    StageReads(t1, "MINOR", w.minor, v1);
    var v2 := v1.(minor := w.minor);
    var t3 := Rewrite(t2, "PATCH", w.patch);
    StageReads(t2, "PATCH", w.patch, v2);
    FoundOf(content, "MAJOR");
    RewriteDigitsOnly(content, "MAJOR", w.major);
    FoundOf(t1, "MINOR");
    RewriteDigitsOnly(t1, "MINOR", w.minor);
    FoundOf(t2, "PATCH");
    RewriteDigitsOnly(t2, "PATCH", w.patch);
    FoundOf(t3, "BUILD");
    RewriteDigitsOnly(t3, "BUILD", w.build);
  }

  /** The text after the four rewrites reads as the version written. */
  lemma {:induction false} RewritesReadBack(content: string, w: Version)
    requires ReadVersion(content).Some?
    ensures ReadVersion(Rewrites(content, w).3) == Some(w)
  {
    var v0 := ReadVersion(content).value;
    var t1 := Rewrite(content, "MAJOR", w.major);
    StageReads(content, "MAJOR", w.major, v0);
    var v1 := v0.(major := w.major);
    var t2 := Rewrite(t1, "MINOR", w.minor);
    StageReads(t1, "MINOR", w.minor, v1);
    var v2 := v1.(minor := w.minor);
    var t3 := Rewrite(t2, "PATCH", w.patch);
    StageReads(t2, "PATCH", w.patch, v2);
    var v3 := v2.(patch := w.patch);
    StageReads(t3, "BUILD", w.build, v3);
    assert v3.(build := w.build) == w;
  }

  /** The written file reads back, through the same four searches, as the bumped version. */
  lemma {:induction false} UpdateReadBack(content: string, part: string)
    requires UpdateContent(content, part).Ok?
    ensures ReadVersion(UpdateContent(content, part).value.0) == Some(UpdateContent(content, part).value.1)
  {
    UpdateParts(content, part);
    RewritesReadBack(content, UpdateContent(content, part).value.1);
  }
}
