/** The two small string formats of the browser client: the storage key an
    attached file is saved under, from which the file name is read back, and
    the header of the data URI the file content is saved as, from which the
    MIME type is read back. */
module DocCodec {
  import opened Wrappers
  import opened JsText

  const DocKeyTag := "taskDoc"

  /** `taskDoc_${Date.now()}_${file.name}`: the storage key of an attached
      file, from the clock reading `now` (milliseconds) and the file name. */
  function DocKey(now: nat, fileName: string): (key: string)
    ensures StartsWith(key, DocKeyTag + "_")
    ensures EndsWith(key, "_" + fileName)
  {
    var key := DocKeyTag + "_" + ToDecimal(now) + "_" + fileName;
    assert key[|key| - |fileName| - 1..] == "_" + fileName;
    key
  }

  /** Different clock readings or file names give different keys: both can
      be read back from the key. */
  lemma DocKeyInjective(now1: nat, name1: string, now2: nat, name2: string)
    requires DocKey(now1, name1) == DocKey(now2, name2)
    ensures now1 == now2 && name1 == name2
  {
    var d1, d2 := ToDecimal(now1), ToDecimal(now2);
    var tag := DocKeyTag + "_";
    var rest := DocKey(now1, name1)[|tag|..];
    assert rest == d1 + "_" + name1;
    assert rest == d2 + "_" + name2;
    DecimalLacks(now1, '_');
    DecimalLacks(now2, '_');
    BeforeFirstAt(d1, '_', name1);
    BeforeFirstAt(d2, '_', name2);
    assert d1 == d2;
    assert name1 == rest[|d1| + 1..] == name2;
    assert now1 == DigitsValue(d1) == DigitsValue(d2) == now2;
  }

  /** `key.split('_')[2]`, with `None` for `undefined` (fewer than three
      pieces). */
  function NameFromKey(key: string): Option<string> {
    var parts := Split(key, '_');
    if |parts| > 2 then Some(parts[2]) else None
  }

  /** The file name read back from a storage key is the name the key was
      built from, cut at its first `_`: the round trip is exact exactly when
      the name has no `_`. */
  lemma DocKeyNameRoundTrip(now: nat, fileName: string)
    ensures NameFromKey(DocKey(now, fileName)) == Some(BeforeFirst(fileName, '_'))
    ensures NameFromKey(DocKey(now, fileName)) == Some(fileName) <==> '_' !in fileName
  {
    var stamp := ToDecimal(now);
    assert '_' !in DocKeyTag;
    assert '_' !in stamp;
    assert DocKey(now, fileName) == DocKeyTag + ['_'] + (stamp + ['_'] + fileName);
    SplitAtFirst(DocKeyTag, '_', stamp + ['_'] + fileName);
    SplitAtFirst(stamp, '_', fileName);
    SplitFirstPiece(fileName, '_');
    if '_' in fileName {
      assert fileName[IndexOf(fileName, '_')] == '_';
    }
  }

  /** `dataURI.split(',')[0].split(':')[1].split(';')[0]`: the MIME type
      between the `:` and the first `;` of the header before the first `,`.
      A header without `:` makes `split(':')[1]` undefined and the next
      `split` throw. */
  function MimeOf(dataUri: string): (r: Result<string, JsError>)
    ensures r.Failure? <==> ':' !in BeforeFirst(dataUri, ',')
    ensures r.Success? ==> ',' !in r.value && ':' !in r.value && ';' !in r.value
  {
    var header := Split(dataUri, ',')[0];
    SplitFirstPiece(dataUri, ',');
    var schemeAndRest := Split(header, ':');
    if |schemeAndRest| < 2 then
      Failure(TypeError)
    else
      var parameters := schemeAndRest[1];
      JoinedPieceChars(schemeAndRest, ':', 1, ',');
      var mime := Split(parameters, ';')[0];
      JoinedPieceChars(Split(parameters, ';'), ';', 0, ',');
      JoinedPieceChars(Split(parameters, ';'), ';', 0, ':');
      Success(mime)
  }

  /** A character of one piece is a character of the joined string. */
  lemma {:induction false} JoinedPieceChars(parts: seq<string>, sep: char, i: nat, c: char)
    requires i < |parts|
    ensures c in parts[i] ==> c in Join(parts, sep)
    decreases |parts|
  {
    if |parts| > 1 && c in parts[i] {
      if i == 0 {
        assert Join(parts, sep) == parts[0] + ([sep] + Join(parts[1..], sep));
      } else {
        JoinedPieceChars(parts[1..], sep, i - 1, c);
        assert Join(parts, sep) == (parts[0] + [sep]) + Join(parts[1..], sep);
      }
    }
  }

  /** The MIME type of a data URI `data:<mime>;base64,<payload>` as
      `FileReader.readAsDataURL` writes it is read back exactly, whatever
      the payload. */
  lemma MimeRoundTrip(mime: string, payload: string)
    requires ',' !in mime && ':' !in mime && ';' !in mime
    ensures MimeOf("data:" + mime + ";base64," + payload) == Success(mime)
  {
    var params := mime + ";base64";
    var header := "data:" + params;
    assert "data:" + mime + ";base64," + payload == header + [','] + payload;
    HeaderPiece(header, payload);
    ParametersPiece(params);
    MimePiece(mime);
  }

  lemma HeaderPiece(header: string, payload: string)
    requires ',' !in header
    ensures Split(header + [','] + payload, ',')[0] == header
  {
    SplitAtFirst(header, ',', payload);
  }

  lemma ParametersPiece(params: string)
    requires ':' !in params
    ensures Split("data:" + params, ':') == ["data", params]
  {
    assert "data:" + params == "data" + [':'] + params;
    SplitAtFirst("data", ':', params);
  }

  lemma MimePiece(mime: string)
    requires ';' !in mime
    ensures Split(mime + ";base64", ';')[0] == mime
  {
    assert mime + ";base64" == mime + [';'] + "base64";
    SplitAtFirst(mime, ';', "base64");
  }
}
