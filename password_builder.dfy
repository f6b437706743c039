/**
 * createPassword (index.js:112-152): one required character per enabled
 * class, a fill from the pool up to the requested length, then an in-place
 * shuffle. Each `Math.floor(Math.random() * n)` is an index chosen with
 * `0 <= k < n`; every contract below holds for every such choice.
 *
 * The code never truncates: when `length` is below the number of enabled
 * classes the fill loop does not run and every required character is kept,
 * so the result has length `max(length, number of enabled classes)`.
 */
module PasswordBuilder {
  import opened Alphabets
  import FisherYates

  function Max(a: int, b: int): int {
    if a < b then b else a
  }

  /** One character per enabled class, from that class's alphabet, in class order. */
  predicate IsRequiredFor(o: Options, required: seq<char>) {
    Drawn(Enabled(o), required)
  }

  /** required[t] is drawn from the alphabet of class cs[t]. */
  predicate Drawn(cs: seq<CharClass>, required: seq<char>) {
    |required| == |cs| && forall t :: 0 <= t < |required| ==> required[t] in Alphabet(cs[t])
  }

  /** `chars[Math.floor(Math.random() * chars.length)]`: some character of `chars`. */
  method Pick(chars: string) returns (ch: char)
    requires |chars| > 0
    ensures ch in chars
  {
    var k :| 0 <= k < |chars|;
    ch := chars[k];
  }

  /**
   * One of the four `if` blocks (index.js:122-137): when the class is
   * ticked, append its alphabet to `validChars` and push one of its
   * characters. `done` lists the classes drawn so far.
   */
  method IncludeClass(ticked: bool, c: CharClass, validChars: string, requiredChars: seq<char>, ghost done: seq<CharClass>)
    returns (validChars': string, requiredChars': seq<char>, ghost done': seq<CharClass>)
    requires Drawn(done, requiredChars)
    ensures validChars' == validChars + Part(ticked, c)
    ensures done' == done + Listed(ticked, c)
    ensures Drawn(done', requiredChars')
    ensures !ticked ==> requiredChars' == requiredChars
    ensures ticked ==> |requiredChars'| == |requiredChars| + 1 && requiredChars'[..|requiredChars|] == requiredChars
  {
    validChars', requiredChars', done' := validChars, requiredChars, done;
    if ticked {
      validChars' := validChars' + Alphabet(c);
      var ch := Pick(Alphabet(c));
      requiredChars', done' := requiredChars' + [ch], done' + [c];
    }
  }

  /**
   * The four `if` blocks (index.js:118-137), in class order: each ticked
   * class appends its alphabet to `validChars` and pushes one of its
   * characters.
   */
  method DrawRequired(o: Options) returns (validChars: string, requiredChars: seq<char>)
    ensures validChars == Pool(o)
    ensures IsRequiredFor(o, requiredChars)
  {
    validChars := "";
    requiredChars := [];
    ghost var done: seq<CharClass> := [];
    validChars, requiredChars, done := IncludeClass(o.lowercase, Lowercase, validChars, requiredChars, done);
    assert "" + Part(o.lowercase, Lowercase) == Part(o.lowercase, Lowercase);
    assert [] + Listed(o.lowercase, Lowercase) == Listed(o.lowercase, Lowercase);
    validChars, requiredChars, done := IncludeClass(o.uppercase, Uppercase, validChars, requiredChars, done);
    validChars, requiredChars, done := IncludeClass(o.numbers, Digit, validChars, requiredChars, done);
    validChars, requiredChars, done := IncludeClass(o.symbols, Symbol, validChars, requiredChars, done);
    assert done == Enabled(o);
  }

  /**
   * The fill loop (index.js:140-143): starting at the number of required
   * characters, push pool characters while the index is below `length`.
   * Nothing is removed, so a short `length` keeps all required characters.
   */
  method FillRemaining(requiredChars: seq<char>, validChars: string, length: int)
    returns (passwordArray: seq<char>)
    requires |validChars| > 0 || length <= |requiredChars|
    ensures |passwordArray| == Max(length, |requiredChars|)
    ensures passwordArray[..|requiredChars|] == requiredChars
    ensures forall t :: |requiredChars| <= t < |passwordArray| ==> passwordArray[t] in validChars
  {
    passwordArray := requiredChars;
    var i := |requiredChars|;
    while i < length
      invariant |requiredChars| <= i
      invariant |passwordArray| == i
      invariant i <= Max(length, |requiredChars|)
      invariant passwordArray[..|requiredChars|] == requiredChars
      invariant forall t :: |requiredChars| <= t < i ==> passwordArray[t] in validChars
    {
      var k :| 0 <= k < |validChars|;
      passwordArray := passwordArray + [validChars[k]];
      i := i + 1;
    }
  }

  /** A password that contains every required character has a character of every enabled class. */
  lemma {:induction false} RequiredGivesCoverage(o: Options, required: seq<char>, password: seq<char>, c: CharClass)
    requires IsRequiredFor(o, required)
    requires multiset(required) <= multiset(password)
    requires IsEnabled(o, c)
    ensures exists t :: 0 <= t < |password| && password[t] in Alphabet(c)
  {
    var cs := Enabled(o);
    EnabledComplete(o, c);
    var t :| 0 <= t < |cs| && cs[t] == c;
    var ch := required[t];
    assert ch in multiset(required);
    assert ch in multiset(password);
    assert ch in password;
    var u :| 0 <= u < |password| && password[u] == ch;
  }

  /**
   * Any rearrangement of the required characters followed by pool characters
   * uses only the pool, never a disabled class, and covers every enabled class.
   */
  lemma FilledPasswordProperties(o: Options, required: seq<char>, filled: seq<char>, password: seq<char>)
    requires IsRequiredFor(o, required)
    requires |filled| >= |required| && filled[..|required|] == required
    requires forall t :: |required| <= t < |filled| ==> filled[t] in Pool(o)
    requires multiset(password) == multiset(filled)
    ensures multiset(required) <= multiset(password)
    ensures forall t :: 0 <= t < |password| ==> password[t] in Pool(o)
    ensures forall t, c :: 0 <= t < |password| && !IsEnabled(o, c) ==> password[t] !in Alphabet(c)
    ensures forall c :: IsEnabled(o, c) ==> exists t :: 0 <= t < |password| && password[t] in Alphabet(c)
  {
    forall t | 0 <= t < |password|
      ensures password[t] in Pool(o)
    {
      assert password[t] in multiset(filled);
      var u :| 0 <= u < |filled| && filled[u] == password[t];
      if u < |required| {
        assert filled[u] == required[u];
        assert IsEnabled(o, Enabled(o)[u]) && password[t] in Alphabet(Enabled(o)[u]);
        PoolMembership(o, password[t]);
      }
    }
    forall t, c | 0 <= t < |password| && !IsEnabled(o, c)
      ensures password[t] !in Alphabet(c)
    {
      if password[t] in Alphabet(c) {
        DisabledNotInPool(o, c, password[t]);
      }
    }
    assert filled == required + filled[|required|..];
    assert multiset(required) <= multiset(password);
    forall c | IsEnabled(o, c)
      ensures exists t :: 0 <= t < |password| && password[t] in Alphabet(c)
    {
      RequiredGivesCoverage(o, required, password, c);
    }
  }

  /**
   * createPassword. The only caller checks first that a class is enabled
   * (index.js:51); with none, the pool is empty.
   */
  method CreatePassword(length: int, o: Options) returns (password: string, ghost required: seq<char>)
    requires AnyEnabled(o)
    ensures IsRequiredFor(o, required) && multiset(required) <= multiset(password)
    ensures |password| == Max(length, |Enabled(o)|)
    ensures forall t :: 0 <= t < |password| ==> password[t] in Pool(o)
    ensures forall t, c :: 0 <= t < |password| && !IsEnabled(o, c) ==> password[t] !in Alphabet(c)
    ensures forall c :: IsEnabled(o, c) ==> exists t :: 0 <= t < |password| && password[t] in Alphabet(c)
  {
    var validChars, requiredChars := DrawRequired(o);
    required := requiredChars;
    var passwordArray := FillRemaining(requiredChars, validChars, length);
    ghost var filled := passwordArray;

    var a := new char[|passwordArray|](k requires 0 <= k < |passwordArray| => passwordArray[k]);
    assert a[..] == filled;
    ghost var draws := FisherYates.Shuffle(a);
    password := a[..];
    FisherYates.ShuffledPermutes(filled, draws, |draws|);

    assert multiset(password) == multiset(filled);
    FilledPasswordProperties(o, requiredChars, filled, password);
  }
}
