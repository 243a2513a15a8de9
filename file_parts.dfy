/**
 * `fileToParts`: the data URL a `FileReader` produces for an upload is split into its MIME
 * type (between the first ':' and the first ';') and its base64 payload (after the first ',').
 * The reader itself is not modelled; its result is the parameter `url`.
 */
module FileParts {
  import opened Wrappers
  import opened Js
  import opened Types

  const PARSE_FAILURE_MESSAGE := "Could not parse file data. Ensure it's a valid image."

  /**
   * The split as written: `substring` with the positions `indexOf` returns, including the -1
   * of a missing delimiter, and a check that neither part came out empty.
   */
  function SplitDataUrlAsWritten(url: string): (r: Result<Base64File>)
    ensures r.Ok? ==> r.value.mimeType != "" && r.value.base64Data != ""
    ensures r.Err? ==> r.message == PARSE_FAILURE_MESSAGE
  {
    var mimeType := Substring(url, IndexOf(url, ':') + 1, IndexOf(url, ';'));
    var base64Data := Substring(url, IndexOf(url, ',') + 1, |url|);
    if mimeType == "" || base64Data == "" then Err(PARSE_FAILURE_MESSAGE)
    else Ok(Base64File(base64Data, mimeType))
  }

  /**
   * The split as intended: it accepts only a URL whose first ':' comes before its first ';',
   * which comes before its first ','.
   */
  function SplitDataUrl(url: string): (r: Result<Base64File>)
    ensures r.Ok? ==> r.value.mimeType != "" && r.value.base64Data != ""
    ensures r.Err? ==> r.message == PARSE_FAILURE_MESSAGE
  {
    var colon := IndexOf(url, ':');
    var semicolon := IndexOf(url, ';');
    var comma := IndexOf(url, ',');
    if !(0 <= colon < semicolon < comma) then Err(PARSE_FAILURE_MESSAGE)
    else
      var mimeType := url[colon + 1..semicolon];
      var base64Data := url[comma + 1..];
      if mimeType == "" || base64Data == "" then Err(PARSE_FAILURE_MESSAGE)
      else Ok(Base64File(base64Data, mimeType))
  }

  /** Whatever the intended split accepts, the split as written returns alike. */
  lemma AcceptedSplitAgreesAsWritten(url: string)
    requires SplitDataUrl(url).Ok?
    ensures SplitDataUrlAsWritten(url) == SplitDataUrl(url)
  {
    var comma := IndexOf(url, ',');
    assert Substring(url, comma + 1, |url|) == url[comma + 1..|url|] == url[comma + 1..];
  }

  /**
   * Parts that `SplitDataUrl` finds again once put together: a non-empty type and payload, and
   * no delimiter inside a part that would be found before the one that ends it.
   */
  predicate SeparableParts(head: string, mimeType: string, parameters: string, base64Data: string) {
    && mimeType != "" && base64Data != ""
    && ':' !in head && ';' !in head && ',' !in head
    && ';' !in mimeType && ',' !in mimeType && ',' !in parameters
  }

  /** The URL "<head>:<type>;<parameters>,<payload>" put together from its parts. */
  function DataUrl(head: string, mimeType: string, parameters: string, base64Data: string): string {
    head + ":" + mimeType + ";" + parameters + "," + base64Data
  }

  /**
   * A URL put together from separable parts is split back into its type and payload
   * ("data:<type>;base64,<payload>" is one).
   */
  lemma {:induction false} SplitDataUrlRoundTrip(head: string, mimeType: string, parameters: string, base64Data: string)
    requires SeparableParts(head, mimeType, parameters, base64Data)
    ensures SplitDataUrl(DataUrl(head, mimeType, parameters, base64Data)) == Ok(Base64File(base64Data, mimeType))
  {
    var url := DataUrl(head, mimeType, parameters, base64Data);
    var colon := |head|;
    var semicolon := colon + 1 + |mimeType|;
    var comma := semicolon + 1 + |parameters|;
    assert url[..colon] == head;
    IndexOfIsFirst(url, ':', colon);
    assert url[..semicolon] == head + ":" + mimeType;
    IndexOfIsFirst(url, ';', semicolon);
    assert url[..comma] == head + ":" + mimeType + ";" + parameters;
    IndexOfIsFirst(url, ',', comma);
    assert url[colon + 1..semicolon] == mimeType;
    assert url[comma + 1..] == base64Data;
  }

  /** Whatever the split accepts is put together from separable parts whose type and payload it returns. */
  lemma SplitDataUrlRecoversParts(url: string)
    requires SplitDataUrl(url).Ok?
    ensures var f := SplitDataUrl(url).value;
            exists head, parameters :: SeparableParts(head, f.mimeType, parameters, f.base64Data)
                                       && url == DataUrl(head, f.mimeType, parameters, f.base64Data)
  {
    AcceptedSplitPositions(url);
    var f := SplitDataUrl(url).value;
    PartsAround(url, IndexOf(url, ':'), IndexOf(url, ';'), IndexOf(url, ','), f.mimeType, f.base64Data);
  }

  /** A text with a first ':', a later first ';' and a later first ',' is put together from separable parts. */
  lemma PartsAround(s: string, i: nat, j: nat, k: nat, mimeType: string, base64Data: string)
    requires i < j < k < |s| && s[i] == ':' && s[j] == ';' && s[k] == ','
    requires ':' !in s[..i] && ';' !in s[..j] && ',' !in s[..k]
    requires mimeType == s[i + 1..j] != "" && base64Data == s[k + 1..] != ""
    ensures exists head, parameters :: SeparableParts(head, mimeType, parameters, base64Data)
                                       && s == DataUrl(head, mimeType, parameters, base64Data)
  {
    SplitAround(s, i, j, k, mimeType, base64Data);
    NotInSlice(s, ';', 0, i);
    NotInSlice(s, ',', 0, i);
    NotInSlice(s, ';', i + 1, j);
    NotInSlice(s, ',', i + 1, j);
    NotInSlice(s, ',', j + 1, k);
    assert SeparableParts(s[..i], mimeType, s[j + 1..k], base64Data);
  }

  /** Where an accepted split took its parts from. */
  lemma AcceptedSplitPositions(url: string)
    requires SplitDataUrl(url).Ok?
    ensures var colon, semicolon, comma := IndexOf(url, ':'), IndexOf(url, ';'), IndexOf(url, ',');
            && 0 <= colon < semicolon < comma
            && SplitDataUrl(url).value == Base64File(url[comma + 1..], url[colon + 1..semicolon])
  {
  }

  /** A text is its pieces around a ':', a later ';' and a later ','. */
  lemma SplitAround(s: string, i: nat, j: nat, k: nat, mimeType: string, base64Data: string)
    requires i < j < k < |s| && s[i] == ':' && s[j] == ';' && s[k] == ','
    requires mimeType == s[i + 1..j] && base64Data == s[k + 1..]
    ensures s == DataUrl(s[..i], mimeType, s[j + 1..k], base64Data)
  {
    assert s[..j] == s[..i] + [s[i]] + s[i + 1..j];
    assert s[..k] == s[..j] + [s[j]] + s[j + 1..k];
    assert s == s[..k] + [s[k]] + s[k + 1..];
  }

  /** A character missing before position `j` is missing from every slice ending there. */
  lemma NotInSlice(s: string, c: char, i: nat, j: nat)
    requires i <= j <= |s| && c !in s[..j]
    ensures c !in s[i..j]
  {
    forall k | 0 <= k < j - i ensures s[i..j][k] != c {
      assert s[i..j][k] == s[..j][i + k];
    }
  }

  /** As written, the split accepts the bare header "data:" and returns it as both type and payload. */
  lemma HeaderOnlyAcceptedAsWritten()
    ensures SplitDataUrlAsWritten("data:") == Ok(Base64File("data:", "data:"))
    ensures SplitDataUrl("data:").Err?
  {
    var url := "data:";
    assert url[..4] == "data";
    IndexOfIsFirst(url, ':', 4);
    assert IndexOf(url, ';') == -1 && IndexOf(url, ',') == -1;
    assert Substring(url, 5, -1) == url[0..5] == url;
    assert Substring(url, 0, 5) == url;
  }
}
