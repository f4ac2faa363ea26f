/** The two helpers over The Movie Database's search results. */
module Tmdb {
  import opened Common
  import opened JsText

  const ImageBaseUrl := "https://image.tmdb.org/t/p/"
  const DefaultPosterSize := "w342"

  /**
   * `getPosterUrl`: no URL for a missing or empty poster path; otherwise the
   * image host, then the size segment, then the path.
   */
  function PosterUrl(posterPath: Option<string>, size: string := DefaultPosterSize): (url: Option<string>)
    ensures url.None? <==> posterPath.None? || posterPath.value == []
    ensures url.Some? ==>
      var k := |ImageBaseUrl| + |size|;
      && |url.value| == k + |posterPath.value|
      && StartsWith(url.value, ImageBaseUrl)
      && url.value[|ImageBaseUrl|..k] == size
      && url.value[k..] == posterPath.value
  {
    if posterPath.None? || posterPath.value == [] then None
    else Some(ImageBaseUrl + size + posterPath.value)
  }

  /**
   * `getYear`: no year for a missing or empty date; otherwise `parseInt` of
   * the text before the first `-`, and no year when that is NaN.
   */
  function GetYear(releaseDate: Option<string>): (year: Option<int>)
    ensures releaseDate.None? || releaseDate.value == [] ==> year.None?
    ensures year.Some? ==> year.value >= 0
  {
    if releaseDate.None? || releaseDate.value == [] then None
    else
      match ParseInt(FirstPiece(releaseDate.value, '-'))
      case Num(y) => Some(y)
      case NaN => None
  }

  function Sign(plus: bool): string { if plus then "+" else "" }

  lemma {:induction false} FirstPieceBefore(a: string, sep: char, rest: string)
    requires sep !in a
    ensures FirstPiece(a + [sep] + rest, sep) == a
  {
    if a != [] {
      assert (a + [sep] + rest)[1..] == a[1..] + [sep] + rest;
      FirstPieceBefore(a[1..], sep, rest);
    }
  }

  /**
   * A date whose text before the first `-` is optional white space, an
   * optional `+`, the digits of the year and then anything that does not
   * start with a digit gives that year.
   */
  lemma GetYearOfDate(space: string, plus: bool, y: string, tail: string, rest: string)
    requires forall i :: 0 <= i < |space| ==> IsJsSpace(space[i])
    requires y != [] && AllDigits(y)
    requires '-' !in tail && (tail == [] || !IsDigit(tail[0]))
    ensures GetYear(Some(space + Sign(plus) + y + tail + "-" + rest)) == Some(DigitsValue(y))
  {
    var piece := space + (Sign(plus) + (y + tail));
    var date := space + Sign(plus) + y + tail + "-" + rest;
    assert date == piece + ['-'] + rest;
    NoDashIn(space, plus, y, tail);
    FirstPieceBefore(piece, '-', rest);
    ParseYearPiece(space, plus, y, tail);
    assert GetYear(Some(date)) == Some(DigitsValue(y));
  }

  /** A date without any `-`, such as a bare year, is parsed as a whole. */
  lemma GetYearWithoutDash(space: string, plus: bool, y: string, tail: string)
    requires forall i :: 0 <= i < |space| ==> IsJsSpace(space[i])
    requires y != [] && AllDigits(y)
    requires '-' !in tail && (tail == [] || !IsDigit(tail[0]))
    ensures GetYear(Some(space + Sign(plus) + y + tail)) == Some(DigitsValue(y))
  {
    var piece := space + (Sign(plus) + (y + tail));
    assert space + Sign(plus) + y + tail == piece;
    NoDashIn(space, plus, y, tail);
    assert FirstPiece(piece, '-') == piece;
    ParseYearPiece(space, plus, y, tail);
  }

  /** A bare year gives that year. */
  lemma GetYearOfBareYear(date: string)
    requires date == "2024"
    ensures GetYear(Some(date)) == Some(2024)
  {
    assert AllDigits(date) by {
      assert date[0] == '2' && date[1] == '0' && date[2] == '2' && date[3] == '4';
    }
    assert DigitsValue(date) == 2024 by {
      assert date[..3] == "202";
      assert "202"[..2] == "20";
      assert "20"[..1] == "2";
      assert "2"[..0] == "";
    }
    assert date == "" + Sign(false) + date + "";
    GetYearWithoutDash("", false, date, "");
  }

  lemma ParseYearPiece(space: string, plus: bool, y: string, tail: string)
    requires forall i :: 0 <= i < |space| ==> IsJsSpace(space[i])
    requires y != [] && AllDigits(y)
    requires tail == [] || !IsDigit(tail[0])
    ensures ParseInt(space + (Sign(plus) + (y + tail))) == Num(DigitsValue(y))
  {
    var word := y + tail;
    var signed := Sign(plus) + word;
    ParseIntOfDigits(y, tail);
    assert word[0] == y[0];
    ParseIntSkipsPlus(word);
    assert ParseInt(signed) == Num(DigitsValue(y));
    assert signed[0] == '+' || signed[0] == y[0];
    ParseIntSkipsSpace(space, signed);
  }

  lemma NoDashIn(space: string, plus: bool, y: string, tail: string)
    requires forall i :: 0 <= i < |space| ==> IsJsSpace(space[i])
    requires AllDigits(y) && '-' !in tail
    ensures '-' !in space + (Sign(plus) + (y + tail))
  {
    var s := space + (Sign(plus) + (y + tail));
    forall i | 0 <= i < |s| ensures s[i] != '-' {
      if i < |space| {
        assert IsJsSpace(space[i]);
      } else if i < |space| + |Sign(plus)| {
      } else if i < |space| + |Sign(plus)| + |y| {
        assert s[i] == y[i - |space| - |Sign(plus)|];
      } else {
        assert s[i] == tail[i - |space| - |Sign(plus)| - |y|];
      }
    }
  }

  /**
   * When no digit follows the optional white space and `+` of the text
   * before the first `-` (or of the whole date when it has none), there is
   * no year. Without a `+`, the word is taken to start after all the white
   * space; after a `+`, anything but a digit, white space included, ends it.
   */
  lemma GetYearWithoutDigits(space: string, plus: bool, word: string, tail: string)
    requires forall i :: 0 <= i < |space| ==> IsJsSpace(space[i])
    requires '-' !in word && (tail == [] || tail[0] == '-')
    requires word == [] || !IsDigit(word[0])
    requires !plus && word != [] ==> !IsJsSpace(word[0]) && word[0] != '+'
    ensures GetYear(Some(space + Sign(plus) + word + tail)) == None
  {
    var piece := space + (Sign(plus) + word);
    var date := space + Sign(plus) + word + tail;
    assert date == piece + tail;
    NoDashIn(space, plus, [], word);
    assert [] + word == word;
    if tail == [] {
      assert date == piece;
      assert FirstPiece(date, '-') == piece;
    } else {
      assert date == piece + ['-'] + tail[1..];
      FirstPieceBefore(piece, '-', tail[1..]);
    }
    ParseNoDigitsPiece(space, plus, word);
    assert GetYear(Some(date)) == None;
  }

  /** A date that is a plain word, such as "abc", gives no year: NaN becomes null. */
  lemma GetYearOfWordExample(word: string)
    requires word == "abc"
    ensures GetYear(Some(word)) == None
  {
    assert !IsDigit(word[0]) && !IsJsSpace(word[0]) && word[0] != '+' && '-' !in word by {
      assert word[0] == 'a' && word[1] == 'b' && word[2] == 'c';
    }
    assert word == "" + Sign(false) + word + "";
    GetYearWithoutDigits("", false, word, "");
  }

  /** A space after the sign, as in "+ 2024-05-01", gives no year. */
  lemma GetYearSpaceAfterPlusExample(spaced: string, rest: string)
    requires spaced == " 2024" && rest == "-05-01"
    ensures GetYear(Some("+" + spaced + rest)) == None
  {
    assert !IsDigit(spaced[0]) && '-' !in spaced by {
      assert spaced[0] == ' ' && spaced[1] == '2' && spaced[2] == '0' && spaced[3] == '2' && spaced[4] == '4';
    }
    assert rest[0] == '-';
    assert "+" + spaced + rest == "" + Sign(true) + spaced + rest;
    GetYearWithoutDigits("", true, spaced, rest);
  }

  lemma ParseNoDigitsPiece(space: string, plus: bool, word: string)
    requires forall i :: 0 <= i < |space| ==> IsJsSpace(space[i])
    requires word == [] || !IsDigit(word[0])
    requires !plus && word != [] ==> !IsJsSpace(word[0]) && word[0] != '+' && word[0] != '-'
    ensures ParseInt(space + (Sign(plus) + word)) == NaN
  {
    var signed := Sign(plus) + word;
    if plus {
      ParsePlusWordNaN(word);
    } else {
      assert signed == word;
      ParseWordNaN(word);
    }
    assert ParseInt(signed) == NaN;
    assert signed == [] || signed[0] == '+' || signed[0] == word[0];
    ParseIntSkipsSpace(space, signed);
  }

  /** After a `+`, a word that does not start with a digit is NaN, even when white space follows the sign. */
  lemma ParsePlusWordNaN(word: string)
    requires word == [] || !IsDigit(word[0])
    ensures ParseInt("+" + word) == NaN
  {
    var p := "+" + word;
    assert p[0] == '+' && !IsJsSpace(p[0]);
    assert LeadingSpaces(p) == 0;
    assert TrimStart(p) == p;
    assert Unsigned(p) == word;
    assert LeadingDigits(word) == [];
  }

  lemma ParseWordNaN(word: string)
    requires word == [] || (!IsDigit(word[0]) && !IsJsSpace(word[0]) && word[0] != '+' && word[0] != '-')
    ensures ParseInt(word) == NaN
  {
    TrimStartSkips([], word);
    assert [] + word == word;
  }

  /** The usual TMDB release date gives its year. */
  lemma GetYearExample(date: string)
    requires date == "2024-05-01"
    ensures GetYear(Some(date)) == Some(2024)
  {
    var y := "2024";
    assert AllDigits(y) by {
      assert y[0] == '2' && y[1] == '0' && y[2] == '2' && y[3] == '4';
    }
    assert DigitsValue(y) == 2024 by {
      assert y[..3] == "202";
      assert "202"[..2] == "20";
      assert "20"[..1] == "2";
      assert "2"[..0] == "";
    }
    assert date == "" + Sign(false) + y + "" + "-" + "05-01";
    GetYearOfDate("", false, y, "", "05-01");
  }
}
