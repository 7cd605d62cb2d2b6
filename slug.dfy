/** The slug normaliser: `get_readable_slug_from` and `get_feed_slug`.

    The source lower-cases the name and then deletes every match of the
    regular expression `[^\w\d]|_`. Python's `\w` is the alphanumeric
    characters plus the underscore. */
module Slug {
  import opened Text
  import opened Shows

  /** `\w`: alphanumeric characters and the underscore. */
  predicate IsWordChar(cm: CharModel, c: char)
  {
    cm.isAlnum(c) || c == '_'
  }

  /** A single match of `[^\w\d]|_`: a character that is neither a word
      character nor a digit, or an underscore. */
  predicate Removed(cm: CharModel, c: char)
  {
    !(IsWordChar(cm, c) || cm.isDigit(c)) || c == '_'
  }

  /** With Unicode's classes the retained characters are exactly the letters
      and digits. */
  lemma RetainedIsAlnum(cm: CharModel, c: char)
    requires WellBehaved(cm)
    ensures !Removed(cm, c) <==> cm.isAlnum(c)
  {
  }

  /** `remove_non_word.sub("", t)`: deletes every removed character. */
  function RemoveNonWord(cm: CharModel, t: string): (r: string)
    ensures |r| <= |t|
    ensures forall i :: 0 <= i < |r| ==> !Removed(cm, r[i])
  {
    if t == [] then []
    else (if Removed(cm, t[0]) then [] else [t[0]]) + RemoveNonWord(cm, t[1..])
  }

  /** `get_readable_slug_from(show_name)`. */
  function ReadableSlug(cm: CharModel, name: string): (r: string)
    ensures |r| <= |name|
    ensures forall i :: 0 <= i < |r| ==> !Removed(cm, r[i])
  {
    RemoveNonWord(cm, LowerAll(cm, name))
  }

  /** `get_feed_slug(show)`: the slug of the show's title. */
  function FeedSlug(cm: CharModel, show: Show): (r: string)
  {
    ReadableSlug(cm, show.title)
  }

  /** Removal works character by character and keeps order: it distributes
      over concatenation. */
  lemma {:induction false} RemoveNonWordAppend(cm: CharModel, a: string, b: string)
    ensures RemoveNonWord(cm, a + b) == RemoveNonWord(cm, a) + RemoveNonWord(cm, b)
  {
    if a != [] {
      var head := if Removed(cm, a[0]) then [] else [a[0]];
      assert (a + b)[0] == a[0] && (a + b)[1..] == a[1..] + b;
      assert RemoveNonWord(cm, a + b) == head + RemoveNonWord(cm, a[1..] + b);
      RemoveNonWordAppend(cm, a[1..], b);
      assert RemoveNonWord(cm, a) == head + RemoveNonWord(cm, a[1..]);
    } else {
      assert a + b == b;
    }
  }

  /** Removal leaves a string unchanged exactly when it holds no removed
      character. */
  lemma {:induction false} RemoveNonWordFixed(cm: CharModel, t: string)
    ensures RemoveNonWord(cm, t) == t <==> forall i :: 0 <= i < |t| ==> !Removed(cm, t[i])
  {
    if t != [] {
      RemoveNonWordFixed(cm, t[1..]);
      if Removed(cm, t[0]) {
        assert |RemoveNonWord(cm, t)| < |t|;
      }
    }
  }

  /** The slug is determined character by character: slugging a
      concatenation concatenates the slugs ... */
  lemma {:induction false} ReadableSlugAppend(cm: CharModel, a: string, b: string)
    ensures ReadableSlug(cm, a + b) == ReadableSlug(cm, a) + ReadableSlug(cm, b)
  {
    assert LowerAll(cm, a + b) == LowerAll(cm, a) + LowerAll(cm, b);
    RemoveNonWordAppend(cm, LowerAll(cm, a), LowerAll(cm, b));
  }

  /** ... and one character becomes its lower-case form when that is kept
      and nothing otherwise. */
  lemma ReadableSlugChar(cm: CharModel, c: char)
    ensures ReadableSlug(cm, [c]) == if Removed(cm, cm.lower(c)) then [] else [cm.lower(c)]
  {
  }

  /** Lower-casing the input first does not change the slug, so names that
      differ only in case share one feed URL. */
  lemma {:induction false} ReadableSlugIgnoresCase(cm: CharModel, name: string)
    requires forall c :: cm.lower(cm.lower(c)) == cm.lower(c)
    ensures ReadableSlug(cm, LowerAll(cm, name)) == ReadableSlug(cm, name)
  {
    assert LowerAll(cm, LowerAll(cm, name)) == LowerAll(cm, name);
  }

  /** The slug is idempotent: a slug is its own slug. */
  lemma {:induction false} ReadableSlugIdempotent(cm: CharModel, name: string)
    requires forall c :: cm.lower(cm.lower(c)) == cm.lower(c)
    ensures ReadableSlug(cm, ReadableSlug(cm, name)) == ReadableSlug(cm, name)
  {
    var s := ReadableSlug(cm, name);
    RemoveNonWordKeepsLowerCase(cm, LowerAll(cm, name));
    assert LowerAll(cm, s) == s;
    RemoveNonWordFixed(cm, s);
  }

  /** Every character is its own lower-case form. */
  ghost predicate IsLowerCase(cm: CharModel, s: string)
  {
    forall i :: 0 <= i < |s| ==> cm.lower(s[i]) == s[i]
  }

  /** Removal keeps only characters of its input, so a lower-case input
      gives a lower-case result. */
  lemma {:induction false} RemoveNonWordKeepsLowerCase(cm: CharModel, t: string)
    requires IsLowerCase(cm, t)
    ensures IsLowerCase(cm, RemoveNonWord(cm, t))
  {
    if t != [] {
      var rest := RemoveNonWord(cm, t[1..]);
      assert IsLowerCase(cm, t[1..]) by {
        forall i | 0 <= i < |t| - 1 ensures cm.lower(t[1..][i]) == t[1..][i] {
          assert t[1..][i] == t[i + 1];
        }
      }
      RemoveNonWordKeepsLowerCase(cm, t[1..]);
      if !Removed(cm, t[0]) {
        var r := RemoveNonWord(cm, t);
        assert r == [t[0]] + rest;
        forall i | 0 <= i < |r|
          ensures cm.lower(r[i]) == r[i]
        {
          if i > 0 {
            assert r[i] == rest[i - 1];
          }
        }
      }
    }
  }

  /** A feed slug is its own slug, so `/api/slug/` given a show's feed slug
      predicts that show's feed URL. */
  lemma FeedSlugIsOwnSlug(cm: CharModel, show: Show)
    requires forall c :: cm.lower(cm.lower(c)) == cm.lower(c)
    ensures ReadableSlug(cm, FeedSlug(cm, show)) == FeedSlug(cm, show)
  {
    ReadableSlugIdempotent(cm, show.title);
  }
}
