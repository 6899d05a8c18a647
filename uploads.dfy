/** The name a chosen file is stored under in the `mood-photos` bucket, shared
    by the mood page and the gallery: `<displayName>-<Date.now()>.<extension>`. */
module Uploads {
  import opened Text

  /** A chosen photo: its file name and size in bytes. */
  datatype PhotoFile = PhotoFile(name: string, size: nat)

  /** The upload name; the extension is the text after the last '.' of the
      file name (`name.split('.').pop()`). */
  function UploadName(displayName: string, now: nat, fileName: string): string {
    displayName + "-" + NatToString(now) + "." + AfterLastDot(fileName)
  }

  /** The upload name keeps the file's extension. */
  lemma UploadNameExtension(displayName: string, now: nat, fileName: string)
    ensures AfterLastDot(UploadName(displayName, now, fileName)) == AfterLastDot(fileName)
  {
    AfterLastDotAppend(displayName + "-" + NatToString(now), AfterLastDot(fileName));
  }

  /** Between the '-' after the name and the extension's '.', the upload name
      holds the upload time in decimal. */
  lemma UploadNameStamp(displayName: string, now: nat, fileName: string)
    ensures var r := UploadName(displayName, now, fileName);
            var e := AfterLastDot(fileName);
            |displayName| + 1 <= |r| - |e| - 1
            && AllDigits(r[|displayName| + 1..|r| - |e| - 1])
            && DigitsValue(r[|displayName| + 1..|r| - |e| - 1]) == now
  {
    var e := AfterLastDot(fileName);
    var s := NatToString(now);
    var r := UploadName(displayName, now, fileName);
    SliceOfSecond(displayName + "-", s, ".", e);
    assert r[|displayName| + 1..|r| - |e| - 1] == s;
    NatToStringRoundTrip(now);
  }
}
