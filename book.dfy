/** The sample domain's `Book` entity: a title that is validated and
    normalised on every assignment, an author and a genre. */
module Domain {

  datatype Option<T> = None | Some(value: T)

  datatype Result<T, E> = Success(value: T) | Failure(error: E)

  /** `Book.MaxTitleLength`. */
  const MaxTitleLength: nat := 1000

  /** Authors and genres are entities of their own (Author.cs and Genre.cs
      are not part of this model); only their identity matters here. */
  datatype Author = Author(authorId: int)
  datatype Genre = Genre(genreId: int)

  /** The `ArgumentException` for parameter `title` that `SetTitle` throws,
      told apart by its message. */
  datatype TitleError =
    | TitleIsEmpty   // "title is empty."
    | TitleTooLong   // "title cannot exceed 1000 characters."

  /** `char.IsWhiteSpace`: the Unicode space separators, the line and
      paragraph separators, and the control characters U+0009 to U+000D and
      U+0085. */
  predicate IsWhiteSpace(c: char)
    ensures IsWhiteSpace(c) ==> !('a' <= c <= 'z') && !('A' <= c <= 'Z')
  {
    c == ' ' || ('\t' <= c <= '\r') || c == '\U{85}' || c == '\U{A0}' || c == '\U{1680}' ||
    ('\U{2000}' <= c <= '\U{200A}') || c == '\U{2028}' || c == '\U{2029}' || c == '\U{202F}' ||
    c == '\U{205F}' || c == '\U{3000}'
  }

  predicate AllWhiteSpace(s: string) {
    forall i :: 0 <= i < |s| ==> IsWhiteSpace(s[i])
  }

  /** A string that starts and ends with a visible character. */
  predicate VisibleAtEnds(s: string) {
    s != [] && !IsWhiteSpace(s[0]) && !IsWhiteSpace(s[|s| - 1])
  }

  /** `string.IsNullOrWhiteSpace`; `None` stands for a null reference. */
  predicate IsNullOrWhiteSpace(s: Option<string>)
    ensures s == None || s == Some([]) ==> IsNullOrWhiteSpace(s)
    ensures !IsNullOrWhiteSpace(s) ==> s.Some? && exists i :: 0 <= i < |s.value| && !IsWhiteSpace(s.value[i])
  {
    s.None? || AllWhiteSpace(s.value)
  }

  lemma AllWhiteSpaceConcat(a: string, b: string)
    requires AllWhiteSpace(a) && AllWhiteSpace(b)
    ensures AllWhiteSpace(a + b)
  {
    forall i | 0 <= i < |a + b| ensures IsWhiteSpace((a + b)[i]) {
      if i < |a| {
        assert (a + b)[i] == a[i];
      } else {
        assert (a + b)[i] == b[i - |a|];
      }
    }
  }

  /** `TrimStart()`: `s` without its leading white space. */
  function TrimStart(s: string): (r: string)
    ensures |r| <= |s| && r == s[|s| - |r|..]
    ensures AllWhiteSpace(s[..|s| - |r|])
    ensures r == [] || !IsWhiteSpace(r[0])
  {
    if s != [] && IsWhiteSpace(s[0]) then
      var r := TrimStart(s[1..]);
      TrimStartStep(s, r);
      r
    else s
  }

  lemma TrimStartStep(s: string, r: string)
    requires s != [] && IsWhiteSpace(s[0])
    requires |r| <= |s| - 1 && r == s[1..][|s| - 1 - |r|..]
    requires AllWhiteSpace(s[1..][..|s| - 1 - |r|])
    ensures r == s[|s| - |r|..]
    ensures AllWhiteSpace(s[..|s| - |r|])
  {
    var cut := s[1..][..|s| - 1 - |r|];
    assert s[..|s| - |r|] == [s[0]] + cut;
    AllWhiteSpaceConcat([s[0]], cut);
  }

  /** `TrimEnd()`: `s` without its trailing white space. */
  function TrimEnd(s: string): (r: string)
    ensures |r| <= |s| && r == s[..|r|]
    ensures AllWhiteSpace(s[|r|..])
    ensures r == [] || !IsWhiteSpace(r[|r| - 1])
  {
    if s != [] && IsWhiteSpace(s[|s| - 1]) then
      var r := TrimEnd(s[..|s| - 1]);
      TrimEndStep(s, r);
      r
    else s
  }

  lemma TrimEndStep(s: string, r: string)
    requires s != [] && IsWhiteSpace(s[|s| - 1])
    requires |r| <= |s| - 1 && r == s[..|s| - 1][..|r|]
    requires AllWhiteSpace(s[..|s| - 1][|r|..])
    ensures r == s[..|r|]
    ensures AllWhiteSpace(s[|r|..])
  {
    var cut := s[..|s| - 1][|r|..];
    assert s[|r|..] == cut + [s[|s| - 1]];
    AllWhiteSpaceConcat(cut, [s[|s| - 1]]);
  }

  /** `string.Trim()`: nothing is left of a blank string, and anything left
      starts and ends with a visible character. */
  function Trim(s: string): (r: string)
    ensures |r| <= |s|
    ensures r == [] <==> AllWhiteSpace(s)
    ensures r == [] || VisibleAtEnds(r)
  {
    TrimParts(s, TrimStart(s), TrimEnd(TrimStart(s)));
    TrimEnd(TrimStart(s))
  }

  /** What `Trim` is, derived from the contracts of its two halves alone:
      `a` is what `TrimStart` leaves of `s` and `r` what `TrimEnd` leaves of `a`. */
  lemma TrimParts(s: string, a: string, r: string)
    requires |a| <= |s| && a == s[|s| - |a|..] && AllWhiteSpace(s[..|s| - |a|])
    requires a == [] || !IsWhiteSpace(a[0])
    requires |r| <= |a| && r == a[..|r|] && AllWhiteSpace(a[|r|..])
    requires r == [] || !IsWhiteSpace(r[|r| - 1])
    ensures |r| <= |s|
    ensures r == [] <==> AllWhiteSpace(s)
    ensures r == [] || VisibleAtEnds(r)
  {
    var cut := s[..|s| - |a|];
    assert s == cut + a;
    if r == [] {
      assert a[|r|..] == a;
      AllWhiteSpaceConcat(cut, a);
    } else {
      assert r[0] == a[0] == s[|cut|];
    }
  }

  /** `char.ToUpperInvariant`, for the ASCII letters; every other character is kept. */
  function UpperChar(c: char): (u: char)
    ensures 'a' <= c <= 'z' ==> 'A' <= u <= 'Z' && u as int == c as int - 32
    ensures !('a' <= c <= 'z') ==> u == c
    ensures IsWhiteSpace(u) <==> IsWhiteSpace(c)
    ensures !('a' <= u <= 'z')
  {
    if 'a' <= c <= 'z' then (c as int - 32) as char else c
  }

  /** `string.ToUpperInvariant()`. */
  function ToUpperInvariant(s: string): (r: string)
    ensures |r| == |s|
    ensures forall i :: 0 <= i < |s| && 'a' <= s[i] <= 'z' ==> r[i] as int == s[i] as int - 32
    ensures forall i :: 0 <= i < |s| && !('a' <= s[i] <= 'z') ==> r[i] == s[i]
    ensures forall i :: 0 <= i < |s| ==> (IsWhiteSpace(r[i]) <==> IsWhiteSpace(s[i]))
    ensures forall i :: 0 <= i < |s| ==> !('a' <= r[i] <= 'z')
  {
    seq(|s|, i requires 0 <= i < |s| => UpperChar(s[i]))
  }

  predicate NoLowerCase(s: string) {
    forall i :: 0 <= i < |s| ==> !('a' <= s[i] <= 'z')
  }

  /** The title `SetTitle` stores for an accepted input. */
  function NormalizeTitle(title: string): (r: string)
    ensures |r| <= |title|
    ensures r == [] <==> AllWhiteSpace(title)
    ensures NoLowerCase(r)
  {
    ToUpperInvariant(Trim(title))
  }

  /** The guards of `SetTitle`, in the order it checks them. */
  function CheckTitle(title: Option<string>): (r: Option<TitleError>)
    ensures r == Some(TitleIsEmpty) <==> IsNullOrWhiteSpace(title)
    ensures r == Some(TitleTooLong) <==> !IsNullOrWhiteSpace(title) && |title.value| > MaxTitleLength
  {
    if IsNullOrWhiteSpace(title) then Some(TitleIsEmpty)
    else if |title.value| > MaxTitleLength then Some(TitleTooLong)
    else None
  }

  class Book {
    var bookId: int
    var title: Option<string>
    var author: Option<Author>
    var genre: Option<Genre>

    /** `private Book()`: the parameterless constructor, which leaves every property unset. */
    constructor Blank()
      ensures bookId == 0 && title == None && author == None && genre == None
    {
      bookId, title, author, genre := 0, None, None, None;
    }

    /** `Book(title, author, genre)`: sets the title first, so an invalid
        title aborts the construction before author or genre are set. */
    static method Create(title: Option<string>, author: Option<Author>, genre: Option<Genre>)
      returns (r: Result<Book, TitleError>)
      ensures r.Failure? <==> CheckTitle(title).Some?
      ensures r.Failure? ==> r.error == CheckTitle(title).value
      ensures r.Success? ==> fresh(r.value) && r.value.bookId == 0 &&
                             r.value.title == Some(NormalizeTitle(title.value)) &&
                             r.value.author == author && r.value.genre == genre
    {
      var book := new Book.Blank();
      var error := book.SetTitle(title);
      if error.Some? {
        return Failure(error.value);
      }
      book.SetAuthor(author);
      book.SetGenre(genre);
      return Success(book);
    }

    method SetGenre(genre: Option<Genre>)
      modifies this`genre
      ensures this.genre == genre
      ensures bookId == old(bookId) && title == old(title) && author == old(author)
    {
      this.genre := genre;
    }

    method SetAuthor(author: Option<Author>)
      modifies this`author
      ensures this.author == author
      ensures bookId == old(bookId) && title == old(title) && genre == old(genre)
    {
      this.author := author;
    }

    /** Rejects a null, empty or white-space title, then one longer than
        `MaxTitleLength` before trimming; otherwise stores the title trimmed
        and upper-cased. A rejected title leaves the stored one as it was. */
    method SetTitle(title: Option<string>) returns (error: Option<TitleError>)
      modifies this`title
      ensures error == CheckTitle(title)
      ensures error == None ==> this.title == Some(NormalizeTitle(title.value))
      ensures error != None ==> this.title == old(this.title)
      ensures bookId == old(bookId) && author == old(author) && genre == old(genre)
    {
      if IsNullOrWhiteSpace(title) {
        return Some(TitleIsEmpty);
      }
      if |title.value| > MaxTitleLength {
        return Some(TitleTooLong);
      }
      this.title := Some(NormalizeTitle(title.value));
      return None;
    }
  }

  // ---------------------------------------------------------------------------
  // Properties of the title rules

  /** Only a title that is neither missing, blank nor too long is accepted. */
  lemma CheckTitleAccepts(title: Option<string>)
    ensures CheckTitle(title) == None <==>
            title.Some? && (exists i :: 0 <= i < |title.value| && !IsWhiteSpace(title.value[i])) &&
            |title.value| <= MaxTitleLength
  {
  }

  /** Upper-casing keeps the length, keeps a visible character at each end
      and leaves no lower-case ASCII letter. */
  lemma UpperKeepsEnds(u: string)
    requires VisibleAtEnds(u)
    ensures |ToUpperInvariant(u)| == |u|
    ensures VisibleAtEnds(ToUpperInvariant(u)) && NoLowerCase(ToUpperInvariant(u))
  {
    var t := ToUpperInvariant(u);
    assert t[0] == UpperChar(u[0]);
    assert t[|t| - 1] == UpperChar(u[|u| - 1]);
  }

  /** An accepted title is stored non-empty, at most `MaxTitleLength`
      characters long, without white space at either end and without
      lower-case ASCII letters. */
  lemma StoredTitleIsValid(title: string)
    requires CheckTitle(Some(title)) == None
    ensures |NormalizeTitle(title)| <= MaxTitleLength
    ensures VisibleAtEnds(NormalizeTitle(title)) && NoLowerCase(NormalizeTitle(title))
  {
    UpperKeepsEnds(Trim(title));
  }

  /** A string that starts and ends with a visible character is its own trim. */
  lemma TrimOfTrimmed(s: string)
    requires VisibleAtEnds(s)
    ensures Trim(s) == s
  {
  }

  /** A stored title passes `SetTitle` again and is stored unchanged. */
  lemma SetTitleIdempotent(title: string)
    requires CheckTitle(Some(title)) == None
    ensures CheckTitle(Some(NormalizeTitle(title))) == None
    ensures NormalizeTitle(NormalizeTitle(title)) == NormalizeTitle(title)
  {
    var t := NormalizeTitle(title);
    StoredTitleIsValid(title);
    VisibleAtEndsAccepted(t);
    TrimOfTrimmed(t);
    UpperOfUpper(t);
  }

  /** A string with a visible character at each end that fits the length
      limit passes the title checks. */
  lemma VisibleAtEndsAccepted(t: string)
    requires VisibleAtEnds(t) && |t| <= MaxTitleLength
    ensures CheckTitle(Some(t)) == None
  {
    assert !IsWhiteSpace(t[0]);
  }

  /** Upper-casing a string without lower-case ASCII letters changes nothing. */
  lemma UpperOfUpper(s: string)
    requires NoLowerCase(s)
    ensures ToUpperInvariant(s) == s
  {
    forall i | 0 <= i < |s| ensures ToUpperInvariant(s)[i] == s[i] {
      assert !('a' <= s[i] <= 'z');
    }
  }

  /** The length limit applies to the untrimmed input: surrounding an accepted
      title with white space on either side never changes what is stored, but
      the padded input is rejected once it exceeds `MaxTitleLength`. */
  lemma PaddingOnlyMatchesLength(lead: string, title: string, pad: string)
    requires CheckTitle(Some(title)) == None
    requires AllWhiteSpace(lead) && AllWhiteSpace(pad)
    ensures NormalizeTitle(lead + title + pad) == NormalizeTitle(title)
    ensures CheckTitle(Some(lead + title + pad)) ==
            if |lead| + |title| + |pad| <= MaxTitleLength then None else Some(TitleTooLong)
  {
    var k :| 0 <= k < |title| && !IsWhiteSpace(title[k]);
    var padded := lead + title + pad;
    assert padded[|lead| + k] == title[k];
    assert !IsNullOrWhiteSpace(Some(padded));
    assert padded == lead + (title + pad);
    TrimStartLead(lead, title + pad);
    TrimStartAppend(title, pad, k);
    TrimEndPadded(TrimStart(title), pad);
    assert Trim(padded) == Trim(title);
  }

  /** Leading white space is all `TrimStart` removes in front of `s`. */
  lemma {:induction false} TrimStartLead(lead: string, s: string)
    requires AllWhiteSpace(lead)
    ensures TrimStart(lead + s) == TrimStart(s)
  {
    if lead != [] {
      assert (lead + s)[0] == lead[0];
      assert (lead + s)[1..] == lead[1..] + s;
      TrimStartLead(lead[1..], s);
    } else {
      assert lead + s == s;
    }
  }

  lemma {:induction false} TrimStartAppend(s: string, pad: string, k: nat)
    requires k < |s| && !IsWhiteSpace(s[k])
    ensures TrimStart(s + pad) == TrimStart(s) + pad
  {
    if IsWhiteSpace(s[0]) {
      assert (s + pad)[1..] == s[1..] + pad;
      assert k > 0;
      TrimStartAppend(s[1..], pad, k - 1);
    } else {
      assert (s + pad)[0] == s[0];
    }
  }

  lemma {:induction false} TrimEndPadded(s: string, pad: string)
    requires AllWhiteSpace(pad)
    ensures TrimEnd(s + pad) == TrimEnd(s)
    decreases |pad|
  {
    if pad != [] {
      var front := pad[..|pad| - 1];
      assert (s + pad)[..|s + pad| - 1] == s + front;
      assert (s + pad)[|s + pad| - 1] == pad[|pad| - 1];
      TrimEndPadded(s, front);
    } else {
      assert s + pad == s;
    }
  }
}
