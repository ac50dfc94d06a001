/**
 * The multer `filename` callback: the on-disk name of an upload is
 * `<millis>-<random>-<sanitized original name>`, where sanitizing replaces
 * every character outside `[A-Za-z0-9.-]` with `_`.
 */
module Naming {
  import opened Strings

  /** The characters the sanitizing regular expression leaves alone. */
  predicate IsNameChar(c: char)
  {
    ('a' <= c <= 'z') || ('A' <= c <= 'Z') || ('0' <= c <= '9') || c == '.' || c == '-'
  }

  /** The characters a sanitized name can contain: the kept ones and the replacement `_`. */
  predicate IsSafeChar(c: char)
  {
    IsNameChar(c) || c == '_'
  }

  predicate AllSafe(s: string)
  {
    forall i :: 0 <= i < |s| ==> IsSafeChar(s[i])
  }

  /** `originalname.replace(/[^a-zA-Z0-9.-]/g, '_')`, one character at a time. */
  function Sanitize(s: string): (r: string)
    ensures |r| == |s|
    ensures forall i :: 0 <= i < |s| && IsNameChar(s[i]) ==> r[i] == s[i]
    ensures forall i :: 0 <= i < |s| && !IsNameChar(s[i]) ==> r[i] == '_'
  {
    if s == [] then []
    else (if IsNameChar(s[0]) then [s[0]] else ['_']) + Sanitize(s[1..])
  }

  /** Every character of a sanitized name is a letter, digit, `.`, `-` or `_`. */
  lemma SanitizeIsSafe(s: string)
    ensures AllSafe(Sanitize(s))
  {
  }

  /** Sanitizing a second time changes nothing. */
  lemma SanitizeIdempotent(s: string)
    ensures Sanitize(Sanitize(s)) == Sanitize(s)
  {
    var r := Sanitize(s);
    assert forall i :: 0 <= i < |r| ==> IsNameChar(r[i]) || r[i] == '_';
  }

  /**
   * A name is left as it is exactly when it uses only safe characters; in
   * particular `_`, which the expression does not keep, is a fixed point too.
   */
  lemma SanitizeFixedPoints(s: string)
    ensures Sanitize(s) == s <==> AllSafe(s)
  {
    if Sanitize(s) == s {
      forall i | 0 <= i < |s| ensures IsSafeChar(s[i]) {
        if !IsNameChar(s[i]) {
          assert Sanitize(s)[i] == '_';
        }
      }
    }
  }

  /** No path separator survives, so a sanitized name cannot leave the upload directory. */
  lemma SanitizeHasNoSeparator(s: string)
    ensures '/' !in Sanitize(s) && '\\' !in Sanitize(s)
  {
    var r := Sanitize(s);
    assert forall i :: 0 <= i < |r| ==> r[i] != '/' && r[i] != '\\';
  }

  lemma SanitizeTraversalExample(name: string)
    requires name == "../../etc/passwd"
    ensures Sanitize(name) == ".._.._etc_passwd"
  {
    var t := ".._.._etc_passwd";
    forall i | 0 <= i < |name| ensures Sanitize(name)[i] == t[i] {
    }
  }

  lemma SanitizeSpaceExample(name: string)
    requires name == "cat pic!.png"
    ensures Sanitize(name) == "cat_pic_.png"
  {
    var t := "cat_pic_.png";
    forall i | 0 <= i < |name| ensures Sanitize(name)[i] == t[i] {
    }
  }

  /** The name multer stores an upload under, given `Date.now()` and `Math.round(Math.random() * 1E9)`. */
  function StoredName(millis: nat, rand: nat, original: string): (name: string)
    ensures AllSafe(name)
    ensures '/' !in name && '\\' !in name
    ensures |name| > |Sanitize(original)| && name[|name| - |Sanitize(original)|..] == Sanitize(original)
    ensures IsDigit(name[0])
  {
    var tail := Sanitize(original);
    SanitizeIsSafe(original);
    SanitizeHasNoSeparator(original);
    Decimal(millis) + "-" + Decimal(rand) + "-" + tail
  }

  /**
   * Two uploads get the same stored name only when they have the same time
   * stamp, the same random token and the same sanitized name: collisions come
   * from the token alone.
   */
  lemma StoredNameInjective(m1: nat, r1: nat, o1: string, m2: nat, r2: nat, o2: string)
    requires StoredName(m1, r1, o1) == StoredName(m2, r2, o2)
    ensures m1 == m2 && r1 == r2 && Sanitize(o1) == Sanitize(o2)
  {
    var t1 := Decimal(r1) + "-" + Sanitize(o1);
    var t2 := Decimal(r2) + "-" + Sanitize(o2);
    StoredNameParts(m1, r1, o1);
    StoredNameParts(m2, r2, o2);
    NoDashInDecimal(m1);
    NoDashInDecimal(m2);
    SplitAtFirst('-', Decimal(m1), t1, Decimal(m2), t2);
    DecimalInjective(m1, m2);
    NoDashInDecimal(r1);
    NoDashInDecimal(r2);
    SplitAtFirst('-', Decimal(r1), Sanitize(o1), Decimal(r2), Sanitize(o2));
    DecimalInjective(r1, r2);
  }

  lemma StoredNameParts(millis: nat, rand: nat, original: string)
    ensures StoredName(millis, rand, original) == Decimal(millis) + "-" + (Decimal(rand) + "-" + Sanitize(original))
  {
  }

  lemma NoDashInDecimal(n: nat)
    ensures '-' !in Decimal(n)
  {
    var s := Decimal(n);
    assert forall i :: 0 <= i < |s| ==> s[i] != '-';
  }

  lemma StoredNameExample(millis: nat, rand: nat, name: string)
    requires name == "cat pic!.png"
    ensures StoredName(millis, rand, name) == Decimal(millis) + "-" + Decimal(rand) + "-cat_pic_.png"
  {
    SanitizeSpaceExample(name);
  }
}
