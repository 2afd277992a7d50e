/**
 * The `imageUrl` rule of the create form: the regular expression
 *   ^(https?://.*\.(?:png|jpg|jpeg|gif|svg|bmp|webp)|data:image/(?:png|jpg|jpeg|gif|svg|bmp|webp);base64,.*)$
 * read as a decision procedure, together with the language it generates and
 * what `trim` does to a matching string.
 */
module ImagePattern {
  import opened Strings

  /** The image types both alternatives accept. */
  const ImageTypes: set<string> := {"png", "jpg", "jpeg", "gif", "svg", "bmp", "webp"}

  /** Every image type is a non-empty run of lower-case letters. */
  lemma ImageTypeLetters(e: string)
    requires e in ImageTypes
    ensures e != [] && forall i :: 0 <= i < |e| ==> 'a' <= e[i] <= 'z'
  {
  }

  /**
   * What follows `http://` or `https://`: `.*\.(?:png|…|webp)` up to the end.
   * An image type holds no dot, so the dot before it is the last one.
   */
  predicate EndsWithImageType(rest: string)
  {
    NoLineTerminator(rest) && exists p :: 0 <= p < |rest| && rest[p] == '.' && rest[p + 1..] in ImageTypes
  }

  /** The first alternative: an http(s) URL ending in an image extension. */
  predicate HttpImageUrl(s: string)
  {
    ("http://" <= s && EndsWithImageType(s[7..])) || ("https://" <= s && EndsWithImageType(s[8..]))
  }

  /** The header of an inline image of type `e`. */
  function DataHeader(e: string): (h: string)
    ensures |h| == |e| + 19 && h[0] == 'd' && h[|h| - 1] == ','
  {
    "data:image/" + e + ";base64,"
  }

  /** The second alternative: `data:image/<type>;base64,` and then `.*`. */
  predicate DataImageUrl(s: string)
  {
    exists e :: e in ImageTypes && DataHeader(e) <= s && NoLineTerminator(s[|DataHeader(e)|..])
  }

  /** The `imageUrl` rule: the pattern matches the whole string. */
  predicate ImageUrlValid(s: string)
  {
    HttpImageUrl(s) || DataImageUrl(s)
  }

  /** `s` spells `scheme` + x + "." + e for an image type e and an x without line terminators. */
  ghost predicate SchemeWord(s: string, scheme: string, x: string, e: string)
  {
    e in ImageTypes && NoLineTerminator(x) && s == scheme + x + "." + e
  }

  /** The strings `scheme` + x + "." + type, with no line terminator in x. */
  ghost predicate SchemeLanguage(s: string, scheme: string)
  {
    exists x, e :: SchemeWord(s, scheme, x, e)
  }

  /** `s` spells the header of image type e followed by a y without line terminators. */
  ghost predicate DataWord(s: string, y: string, e: string)
  {
    e in ImageTypes && NoLineTerminator(y) && s == DataHeader(e) + y
  }

  /** The strings header + y, with no line terminator in y. */
  ghost predicate DataLanguage(s: string)
  {
    exists y, e :: DataWord(s, y, e)
  }

  /** The language the pattern generates, alternative by alternative. */
  ghost predicate InPatternLanguage(s: string)
  {
    SchemeLanguage(s, "http://") || SchemeLanguage(s, "https://") || DataLanguage(s)
  }

  /** Where the last dot of a matching tail is, the tail splits into x + "." + type. */
  lemma EndsWithImageTypeSplits(rest: string)
    requires EndsWithImageType(rest)
    ensures exists x, e :: SchemeWord(rest, "", x, e)
  {
    var p :| 0 <= p < |rest| && rest[p] == '.' && rest[p + 1..] in ImageTypes;
    var x, e := rest[..p], rest[p + 1..];
    assert rest == "" + x + "." + e;
    assert SchemeWord(rest, "", x, e);
  }

  /** x + "." + type, with no line terminator in x, ends in an image extension. */
  lemma SplitEndsWithImageType(rest: string, x: string, e: string)
    requires SchemeWord(rest, "", x, e)
    ensures EndsWithImageType(rest)
  {
    ImageTypeLetters(e);
    var p := |x|;
    assert rest[p] == '.' && rest[p + 1..] == e;
    forall i | 0 <= i < |rest| ensures !IsLineTerminator(rest[i]) {
      if i < p {
        assert rest[i] == x[i];
      } else if i > p {
        assert rest[i] == e[i - p - 1];
      }
    }
  }

  /** `rest` ends in an image extension exactly when it is some x + "." + type. */
  lemma EndsWithImageTypeIff(rest: string)
    ensures EndsWithImageType(rest) <==> exists x, e :: SchemeWord(rest, "", x, e)
  {
    if EndsWithImageType(rest) {
      EndsWithImageTypeSplits(rest);
    }
    if exists x, e :: SchemeWord(rest, "", x, e) {
      var x, e :| SchemeWord(rest, "", x, e);
      SplitEndsWithImageType(rest, x, e);
    }
  }

  /** Prefixing a scheme to a split tail gives a word of that scheme's language, and back. */
  lemma SchemeWordShift(s: string, scheme: string, x: string, e: string)
    requires scheme <= s
    ensures SchemeWord(s, scheme, x, e) <==> SchemeWord(s[|scheme|..], "", x, e)
  {
    var rest := s[|scheme|..];
    assert s == scheme + rest;
    assert scheme + x + "." + e == scheme + ("" + x + "." + e);
  }

  /** One scheme's half of the first alternative accepts exactly its language. */
  lemma SchemeAlternativeIff(s: string, scheme: string)
    ensures (scheme <= s && EndsWithImageType(s[|scheme|..])) <==> SchemeLanguage(s, scheme)
  {
    if scheme <= s && EndsWithImageType(s[|scheme|..]) {
      EndsWithImageTypeSplits(s[|scheme|..]);
      var x, e :| SchemeWord(s[|scheme|..], "", x, e);
      SchemeWordShift(s, scheme, x, e);
    }
    if SchemeLanguage(s, scheme) {
      var x, e :| SchemeWord(s, scheme, x, e);
      assert scheme <= s;
      SchemeWordShift(s, scheme, x, e);
      SplitEndsWithImageType(s[|scheme|..], x, e);
    }
  }

  /** The second alternative accepts exactly its language. */
  lemma DataAlternativeIff(s: string)
    ensures DataImageUrl(s) <==> DataLanguage(s)
  {
    if DataLanguage(s) {
      var y, e :| DataWord(s, y, e);
      assert s[|DataHeader(e)|..] == y;
    }
    if DataImageUrl(s) {
      var e :| e in ImageTypes && DataHeader(e) <= s && NoLineTerminator(s[|DataHeader(e)|..]);
      assert s == DataHeader(e) + s[|DataHeader(e)|..];
      assert DataWord(s, s[|DataHeader(e)|..], e);
    }
  }

  /** The `imageUrl` check accepts exactly the strings the pattern generates. */
  lemma ImageUrlValidIffPattern(s: string)
    ensures ImageUrlValid(s) <==> InPatternLanguage(s)
  {
    SchemeAlternativeIff(s, "http://");
    SchemeAlternativeIff(s, "https://");
    DataAlternativeIff(s);
  }

  /** An http(s) image URL starts with 'h' and ends with a letter: `trim` leaves it alone. */
  lemma HttpImageUrlIsTrimmed(s: string)
    requires HttpImageUrl(s)
    ensures Trim(s) == s
  {
    var n := if "http://" <= s then 7 else 8;
    assert s[0] == 'h';
    var rest := s[n..];
    var p :| 0 <= p < |rest| && rest[p] == '.' && rest[p + 1..] in ImageTypes;
    ImageTypeLetters(rest[p + 1..]);
    assert s[|s| - 1] == rest[p + 1..][|rest| - p - 2];
    TrimOfUnpadded(s);
  }

  /** Cutting an inline-image URL anywhere after its header leaves an inline-image URL. */
  lemma DataImageUrlPrefix(s: string, e: string, m: int)
    requires e in ImageTypes && DataHeader(e) <= s && NoLineTerminator(s[|DataHeader(e)|..])
    requires |DataHeader(e)| <= m <= |s|
    ensures DataImageUrl(s[..m])
  {
    var n := |DataHeader(e)|;
    assert s[..m][n..] == s[n..][..m - n];
    assert DataHeader(e) <= s[..m];
  }

  /** Trimming an inline-image URL only cuts blanks after its header. */
  lemma DataImageUrlSurvivesTrim(s: string)
    requires DataImageUrl(s)
    ensures DataImageUrl(Trim(s))
  {
    var e :| e in ImageTypes && DataHeader(e) <= s && NoLineTerminator(s[|DataHeader(e)|..]);
    var h := DataHeader(e);
    assert s[0] == h[0] && s[|h| - 1] == h[|h| - 1];
    TrimKeepsUnpaddedHead(s, |h|);
    DataImageUrlPrefix(s, e, |Trim(s)|);
  }

  /** A valid image URL is still valid once trimmed; only an inline-image URL can lose trailing blanks. */
  lemma ValidImageUrlSurvivesTrim(s: string)
    requires ImageUrlValid(s)
    ensures ImageUrlValid(Trim(s))
    ensures HttpImageUrl(s) ==> Trim(s) == s
  {
    if HttpImageUrl(s) {
      HttpImageUrlIsTrimmed(s);
    } else {
      DataImageUrlSurvivesTrim(s);
    }
  }
}
