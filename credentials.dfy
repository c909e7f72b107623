/**
  * Reading the caller's API key from the `Authorization` header: either
  * `Bearer <key>` (the word in any letter case) or the bare key.
  */
module Credentials {
  import opened Wrappers
  import opened Text

  const BearerPrefix := "bearer "

  /** `header.lower().startswith("bearer ")` */
  predicate HasBearerPrefix(header: string) {
    StartsWith(Lower(header), BearerPrefix)
  }

  /** The header a client sends for `key`. */
  function BearerHeader(key: string): string {
    "Bearer " + key
  }

  /** Python's truthiness of the extracted key: present and not the empty string. */
  predicate Present(key: Option<string>) {
    key.Some? && key.value != []
  }

  /** After a bearer prefix, the first space of the header is the one that ends the prefix. */
  lemma BearerSpace(header: string)
    requires HasBearerPrefix(header)
    ensures ' ' in header && FirstIndexOf(header, ' ') == |BearerPrefix| - 1
  {
    assert Lower(header)[..7] == BearerPrefix;
    assert forall j :: 0 <= j < 7 ==> LowerChar(header[j]) == BearerPrefix[j];
    assert header[6] == ' ';
    FirstIndexOfAt(header, ' ', 6);
  }

  /** A header that starts with "Bearer " or "bearer " has the bearer prefix. */
  lemma BearerWord(header: string)
    requires |header| >= 7 && (header[..7] == "Bearer " || header[..7] == "bearer ")
    ensures HasBearerPrefix(header)
  {
    var low := Lower(header);
    assert low[0] == 'b';
    assert low[..7] == BearerPrefix;
  }

  /**
    * A header has the bearer prefix exactly when its first seven characters spell "bearer "
    * with each letter in either case.
    */
  lemma BearerAnyCase(header: string)
    ensures HasBearerPrefix(header)
        <==> |header| >= |BearerPrefix|
             && forall j :: 0 <= j < |BearerPrefix| ==>
                  header[j] == BearerPrefix[j]
                  || ('a' <= BearerPrefix[j] <= 'z' && header[j] as int == BearerPrefix[j] as int - 32)
  {
    if HasBearerPrefix(header) {
      forall j | 0 <= j < |BearerPrefix|
        ensures header[j] == BearerPrefix[j]
                || ('a' <= BearerPrefix[j] <= 'z' && header[j] as int == BearerPrefix[j] as int - 32)
      {
        assert Lower(header)[j] == BearerPrefix[j];
      }
    } else if |header| >= |BearerPrefix| {
      assert Lower(header)[..|BearerPrefix|] != BearerPrefix;
      var j :| 0 <= j < |BearerPrefix| && Lower(header)[j] != BearerPrefix[j];
      assert LowerChar(header[j]) != BearerPrefix[j];
    }
  }

  /**
    * `_extract_bearer_token`: no key for a missing or empty header; otherwise the text
    * after the bearer prefix, or the whole header, without surrounding whitespace.
    */
  function ExtractBearerToken(header: Option<string>): (key: Option<string>)
    ensures key.None? <==> header.None? || header.value == []
    ensures key.Some? ==> key.value == [] || (!IsSpace(key.value[0]) && !IsSpace(key.value[|key.value| - 1]))
    ensures header.Some? && HasBearerPrefix(header.value) ==> key == Some(Strip(header.value[|BearerPrefix|..]))
    ensures header.Some? && header.value != [] && !HasBearerPrefix(header.value) ==> key == Some(Strip(header.value))
  {
    if header.None? || header.value == [] then None
    else if HasBearerPrefix(header.value) then
      BearerSpace(header.value);
      Some(Strip(AfterFirst(header.value, ' ')))
    else Some(Strip(header.value))
  }

  /** A key without surrounding whitespace survives being sent as `Bearer <key>`. */
  lemma BearerRoundTrip(key: string)
    requires Strip(key) == key
    ensures ExtractBearerToken(Some(BearerHeader(key))) == Some(key)
  {
    var h := BearerHeader(key);
    BearerWord(h);
    assert h[7..] == key;
  }

  /**
    * The handlers answer 401 exactly when there is no header, the header is blank, or it is
    * a bearer prefix followed only by whitespace.
    */
  lemma MissingKeyIff(header: Option<string>)
    ensures !Present(ExtractBearerToken(header))
        <==> header.None? || IsBlank(header.value)
             || (HasBearerPrefix(header.value) && IsBlank(header.value[|BearerPrefix|..]))
  {
    if header.Some? && HasBearerPrefix(header.value) {
      var h := header.value;
      assert LowerChar(h[0]) == 'b';
      assert !IsSpace(h[0]);
    }
  }

  /**
    * "Bearer <key>", "bearer <key>" and the bare "<key>" all name the same key, for every key
    * that has no surrounding whitespace and does not itself start with the bearer prefix
    * ("abc123", say).
    */
  lemma SameKeyThreeWays(key: string)
    requires key != [] && Strip(key) == key && !HasBearerPrefix(key)
    ensures ExtractBearerToken(Some(BearerHeader(key))) == Some(key)
    ensures ExtractBearerToken(Some("bearer " + key)) == Some(key)
    ensures ExtractBearerToken(Some(key)) == Some(key)
  {
    var upper, lower := BearerHeader(key), "bearer " + key;
    BearerWord(upper);
    BearerWord(lower);
    assert upper[7..] == key && lower[7..] == key;
  }
}
