/**
 * The Google sign-in verify callback: return the account with the profile's email,
 * or create a verified one under a username derived from the display name.
 */
module GoogleAuth {
  import opened Outcomes
  import opened Accounts
  import opened Mutations

  /** The parts of the Google profile the callback reads. */
  datatype Profile = Profile(displayName: string, email: string)

  /** A character `\w` matches (no Unicode flag): ASCII letters, digits and underscore. */
  predicate IsWordChar(c: char)
  {
    ('a' <= c <= 'z') || ('A' <= c <= 'Z') || ('0' <= c <= '9') || c == '_'
  }

  /** `s.replace(/\W/g, '')`: the word characters of s, in order. */
  function StripNonWord(s: string): (r: string)
    ensures forall i :: 0 <= i < |r| ==> IsWordChar(r[i])
    ensures |r| <= |s|
    ensures (forall i :: 0 <= i < |s| ==> IsWordChar(s[i])) ==> r == s
  {
    if |s| == 0 then []
    else if IsWordChar(s[0]) then [s[0]] + StripNonWord(s[1..])
    else StripNonWord(s[1..])
  }

  /** Stripping works character by character: it maps a concatenation to the concatenation of the parts. */
  lemma {:induction false} StripNonWordAppend(s: string, t: string)
    ensures StripNonWord(s + t) == StripNonWord(s) + StripNonWord(t)
  {
    if |s| == 0 {
      assert s + t == t;
    } else {
      assert (s + t)[1..] == s[1..] + t;
      StripNonWordAppend(s[1..], t);
    }
  }

  /** Every word character of s survives, as many times as it occurs; nothing else does. */
  lemma {:induction false} StripNonWordCounts(s: string, c: char)
    ensures multiset(StripNonWord(s))[c] == if IsWordChar(c) then multiset(s)[c] else 0
  {
    if |s| > 0 {
      assert s == [s[0]] + s[1..];
      StripNonWordCounts(s[1..], c);
    }
  }

  function LowerChar(c: char): char
  {
    if 'A' <= c <= 'Z' then (c as int + 32) as char else c
  }

  /** `toLowerCase` on a string of ASCII characters. */
  function ToLower(s: string): (r: string)
    ensures |r| == |s|
    ensures forall i :: 0 <= i < |s| ==> r[i] == LowerChar(s[i])
  {
    if |s| == 0 then [] else [LowerChar(s[0])] + ToLower(s[1..])
  }

  /** A character a username derived from a display name can hold. */
  predicate IsHandleChar(c: char)
  {
    ('a' <= c <= 'z') || ('0' <= c <= '9') || c == '_'
  }

  /** The base username: the display name with non-word characters removed, lowercased. */
  function BaseUsername(displayName: string): (base: Username)
    ensures |base| <= |displayName|
    ensures forall i :: 0 <= i < |base| ==> IsHandleChar(base[i])
  {
    ToLower(StripNonWord(displayName))
  }

  /** Deriving again from a derived name gives the same name. */
  lemma BaseUsernameIdempotent(displayName: string)
    ensures BaseUsername(BaseUsername(displayName)) == BaseUsername(displayName)
  {
    var b := BaseUsername(displayName);
    assert forall i :: 0 <= i < |b| ==> IsWordChar(b[i]);
    assert StripNonWord(b) == b;
    var l := ToLower(b);
    assert |l| == |b|;
    forall i | 0 <= i < |b|
      ensures l[i] == b[i]
    {
      assert IsHandleChar(b[i]);
    }
  }

  // ---- Decimal numerals, as a template literal renders a counter ----

  function DigitChar(d: nat): (c: char)
    requires d < 10
    ensures '0' <= c <= '9' && c as int - '0' as int == d
  {
    ('0' as int + d) as char
  }

  predicate IsDigits(s: string)
  {
    forall i :: 0 <= i < |s| ==> '0' <= s[i] <= '9'
  }

  /** The decimal numeral of n, without leading zeros. */
  function Decimal(n: nat): (s: string)
    ensures |s| >= 1 && IsDigits(s)
    ensures n > 0 ==> s[0] != '0'
  {
    if n < 10 then [DigitChar(n)] else Decimal(n / 10) + [DigitChar(n % 10)]
  }

  /** The value of a numeral. */
  function DecimalValue(s: string): nat
    requires IsDigits(s)
  {
    if |s| == 0 then 0
    else DecimalValue(s[..|s| - 1]) * 10 + (s[|s| - 1] as int - '0' as int)
  }

  lemma {:induction false} DecimalRoundTrip(n: nat)
    ensures DecimalValue(Decimal(n)) == n
  {
    if n >= 10 {
      var s := Decimal(n);
      assert s[..|s| - 1] == Decimal(n / 10);
      DecimalRoundTrip(n / 10);
    }
  }

  /** Different counters give different numerals. */
  lemma DecimalInjective(m: nat, n: nat)
    requires Decimal(m) == Decimal(n)
    ensures m == n
  {
    DecimalRoundTrip(m);
    DecimalRoundTrip(n);
  }

  /** The k-th candidate the loop tries: the base itself, then the base followed by 1, 2, 3, ... */
  function Candidate(base: Username, k: nat): Username
  {
    if k == 0 then base else base + Decimal(k)
  }

  lemma CandidateInjective(base: Username, j: nat, k: nat)
    requires Candidate(base, j) == Candidate(base, k)
    ensures j == k
  {
    if j != 0 && k != 0 {
      var cj, ck := Candidate(base, j), Candidate(base, k);
      assert cj[|base|..] == Decimal(j);
      assert ck[|base|..] == Decimal(k);
      DecimalInjective(j, k);
    }
  }

  /** `name` is the first free candidate: every earlier one is taken. */
  ghost predicate FirstFree(users: Table, base: Username, name: Username)
  {
    name !in users &&
    exists k: nat :: name == Candidate(base, k) && forall j: nat :: j < k ==> Candidate(base, j) in users
  }

  /** The first free candidate is unique, so the loop's answer is determined by the table. */
  lemma FirstFreeUnique(users: Table, base: Username, a: Username, b: Username)
    requires FirstFree(users, base, a) && FirstFree(users, base, b)
    ensures a == b
  {
    var ka: nat :| a == Candidate(base, ka) && forall j: nat :: j < ka ==> Candidate(base, j) in users;
    var kb: nat :| b == Candidate(base, kb) && forall j: nat :: j < kb ==> Candidate(base, j) in users;
    assert ka < kb ==> Candidate(base, ka) in users;
    assert kb < ka ==> Candidate(base, kb) in users;
  }

  /** Candidates tried so far were all earlier ones, so the current one is new. */
  lemma CurrentNotTried(base: Username, tried: set<Username>, k: nat)
    requires forall t :: t in tried ==> exists j: nat :: j < k && t == Candidate(base, j)
    ensures Candidate(base, k) !in tried
  {
    if Candidate(base, k) in tried {
      var j: nat :| j < k && Candidate(base, k) == Candidate(base, j);
      CandidateInjective(base, j, k);
    }
  }

  /** The loop `while (await User.findOne({ username })) username = base + count++`. */
  method DeriveUsername(users: Table, base: Username) returns (username: Username)
    ensures username !in users
    ensures base !in users ==> username == base
    ensures exists k: nat :: username == Candidate(base, k) && forall j: nat :: j < k ==> Candidate(base, j) in users
  {
    username := base;
    var count: nat := 1;
    ghost var tried: set<Username> := {};
    while username in users
      invariant count >= 1 && username == Candidate(base, count - 1)
      invariant forall j: nat :: j < count - 1 ==> Candidate(base, j) in users
      invariant tried <= users.Keys
      invariant forall t :: t in tried ==> exists j: nat :: j < count - 1 && t == Candidate(base, j)
      decreases |users.Keys - tried|
    {
      CurrentNotTried(base, tried, count - 1);
      assert users.Keys - tried == (users.Keys - (tried + {username})) + {username};
      ghost var k := count - 1;
      assert username == Candidate(base, k);
      tried := tried + {username};
      assert forall t :: t in tried ==> exists j: nat :: j < count && t == Candidate(base, j);
      username := base + Decimal(count);
      assert username == Candidate(base, count);
      count := count + 1;
    }
    assert username == Candidate(base, count - 1);
  }

  /**
   * The verify callback: an account with the profile's email is returned as it is;
   * otherwise a verified account is created under the first free candidate username.
   */
  method SignIn(store: UserStore, profile: Profile) returns (name: Username, user: User)
    requires store.Valid()
    modifies store
    ensures store.Valid()
    ensures EmailTaken(old(store.users), profile.email) ==>
      && store.users == old(store.users)
      && name == Owner(old(store.users), profile.email)
      && user == old(store.users)[name]
    ensures !EmailTaken(old(store.users), profile.email) ==>
      && FirstFree(old(store.users), BaseUsername(profile.displayName), name)
      && user == OAuthAccount(profile.email)
      && store.users == old(store.users)[name := user]
    ensures SocialInvariant(old(store.users)) ==> SocialInvariant(store.users)
  {
    var found := FindByEmail(store.users, profile.email);
    if found.Some? {
      name := found.value;
      user := store.users[name];
      return;
    }
    var base := BaseUsername(profile.displayName);
    name := DeriveUsername(store.users, base);
    user := OAuthAccount(profile.email);
    store.users := store.users[name := user];
  }
}
