/** The settings page (src/app/settings.tsx): four limit texts and the
    switches, kept in a stored settings object, and a save that writes the
    switches out as the texts "true"/"false" before posting the object. */
module Settings {
  import opened Js
  import Connections

  /** The settings object's property names: `maxUSDT`, `minUSDT`, `maxBTC`,
      `minBTC`, `saveTransactionHist`, `twoFactor`, `emailNotifications`,
      `pushNotifications`, `smsNotifications`, `lightningActive`,
      `taprootActive`, and any other name the server sends. */
  datatype Key =
    | MaxUSDT | MinUSDT | MaxBTC | MinBTC
    | SaveTransactionHist | TwoFactor | EmailNotifications | PushNotifications
    | SmsNotifications | LightningActive | TaprootActive
    | Other(name: string)

  /** The settings object's properties. */
  type Fields = map<Key, Value<()>>

  /** The fields the save converts, in the order it converts them. */
  const BooleanFields: seq<Key> := [
    SaveTransactionHist, TwoFactor, EmailNotifications, PushNotifications,
    SmsNotifications, LightningActive, TaprootActive]

  const SetUrl := "https://satolink.com/api/v1/settings/set"

  /** The stored object before anything was fetched or saved
      (src/store/settings.ts). */
  const Defaults: Fields := map[
    MaxUSDT := Str("1000"), MinUSDT := Str("1"), MaxBTC := Str("0.1"), MinBTC := Str("0.00001"),
    SaveTransactionHist := Bool(true), LightningActive := Bool(true), TaprootActive := Bool(true),
    TwoFactor := Bool(false), EmailNotifications := Bool(true)]

  /** `s[k]` of the object, `undefined` when absent. */
  function Read(s: Fields, k: Key): (r: Value<()>)
    ensures k in s ==> r == s[k]
    ensures k !in s ==> r == Undefined
  {
    if k in s then s[k] else Undefined
  }

  /** `s[k] ? "true" : "false"`. */
  function TruthText(v: Value<()>): (r: Value<()>)
    ensures r == Str("true") <==> Truthy(v)
    ensures r == Str("false") <==> !Truthy(v)
  {
    if Truthy(v) then Str("true") else Str("false")
  }

  predicate Distinct(keys: seq<Key>) {
    forall i, j :: 0 <= i < j < |keys| ==> keys[i] != keys[j]
  }

  /** The conversion loop over `keys`, one assignment at a time. */
  function Convert(s: Fields, keys: seq<Key>): (r: Fields)
    requires Distinct(keys)
    ensures forall k :: k in r <==> k in s || k in keys
    ensures forall k :: k in keys ==> r[k] == TruthText(Read(s, k))
    ensures forall k :: k in s && k !in keys ==> r[k] == s[k]
    decreases |keys|
  {
    if keys == [] then s
    else
      var k := keys[0];
      var t := s[k := TruthText(Read(s, k))];
      TailKeys(keys);
      var r := Convert(t, keys[1..]);
      ConvertStep(s, k, t, keys, r);
      r
  }

  lemma TailKeys(keys: seq<Key>)
    requires Distinct(keys) && keys != []
    ensures Distinct(keys[1..]) && keys[0] !in keys[1..]
    ensures forall j :: j in keys <==> j == keys[0] || j in keys[1..]
  {
    assert keys == [keys[0]] + keys[1..];
    forall i | 0 <= i < |keys[1..]| ensures keys[1..][i] != keys[0] {
      assert keys[1..][i] == keys[i + 1];
    }
  }

  /** One assignment followed by the rest of the loop is the whole loop. */
  lemma ConvertStep(s: Fields, k: Key, t: Fields, keys: seq<Key>, r: Fields)
    requires keys != [] && k == keys[0] && k !in keys[1..]
    requires forall j :: j in keys <==> j == k || j in keys[1..]
    requires t == s[k := TruthText(Read(s, k))]
    requires forall j :: j in r <==> j in t || j in keys[1..]
    requires forall j :: j in keys[1..] ==> r[j] == TruthText(Read(t, j))
    requires forall j :: j in t && j !in keys[1..] ==> r[j] == t[j]
    ensures forall j :: j in r <==> j in s || j in keys
    ensures forall j :: j in keys ==> r[j] == TruthText(Read(s, j))
    ensures forall j :: j in s && j !in keys ==> r[j] == s[j]
  {
    forall j | j in keys ensures r[j] == TruthText(Read(s, j)) {
      if j == k {
        assert j in t && j !in keys[1..];
      } else {
        assert j in keys[1..] && Read(t, j) == Read(s, j);
      }
    }
  }

  lemma BooleanFieldsDistinct()
    ensures Distinct(BooleanFields)
  {
  }

  /** The save's conversion of the stored object: each listed field becomes
      "true" or "false" after its truthiness, absent ones included, and every
      other field is left as it was. */
  function Stringify(s: Fields): (r: Fields)
    ensures forall k :: k in r <==> k in s || k in BooleanFields
    ensures forall k :: k in BooleanFields ==> r[k] == TruthText(Read(s, k))
    ensures forall k :: k in s && k !in BooleanFields ==> r[k] == s[k]
  {
    BooleanFieldsDistinct();
    Convert(s, BooleanFields)
  }

  /** After a save every switch holds a truthy text, so a second save sends
      it as "true" and the next flip turns it off, whatever it was. */
  lemma FlipAfterSave(s: Fields, k: Key)
    requires k in BooleanFields
    ensures Truthy(Read(Stringify(s), k))
    ensures Stringify(Stringify(s))[k] == Str("true")
    ensures Flip(Stringify(s), k)[k] == Bool(false)
  {
    var t := Stringify(s);
    assert Read(t, k) == t[k] == TruthText(Read(s, k));
    assert Truthy(Read(t, k));
  }

  /** The text "false" is truthy, so saving twice sends every switch as
      "true", whatever it was. */
  lemma SecondSaveAllTrue(s: Fields)
    ensures forall k :: k in BooleanFields ==> Stringify(Stringify(s))[k] == Str("true")
  {
    forall k | k in BooleanFields ensures Stringify(Stringify(s))[k] == Str("true") {
      FlipAfterSave(s, k);
    }
  }

  /** A listed field the object lacks is sent as "false". */
  lemma AbsentSentFalse(s: Fields, k: Key)
    requires k in BooleanFields && k !in s
    ensures Stringify(s)[k] == Str("false")
  {
  }

  /** The stored defaults lack the push channel, so it is sent as "false". */
  lemma DefaultsPushOff()
    ensures Stringify(Defaults)[PushNotifications] == Str("false")
  {
    assert BooleanFields[3] == PushNotifications;
    AbsentSentFalse(Defaults, PushNotifications);
  }

  /** The default two-factor switch is off and is sent as "false". */
  lemma DefaultsTwoFactorOff()
    ensures Stringify(Defaults)[TwoFactor] == Str("false")
  {
    assert BooleanFields[1] == TwoFactor;
  }

  /** What the save does: without a token it goes to the login page and
      sends nothing; otherwise it posts the converted object with the token. */
  datatype SaveOutcome = ToLogin | Posted(url: string, authorization: string, body: Fields)

  /** The save: the stored object afterwards (converted in place before the
      request goes out) and what was done. */
  function Save(s: Fields, token: Option<string>): (r: (Fields, SaveOutcome))
    ensures r.1.ToLogin? <==> !Present(token)
    ensures r.1.ToLogin? ==> r.0 == s
    ensures r.1.Posted? ==> r.0 == Stringify(s) && r.1.body == Stringify(s)
    ensures r.1.Posted? ==> r.1.url == SetUrl && r.1.authorization == "Bearer " + token.value
  {
    if !Present(token) then (s, ToLogin)
    else (Stringify(s), Posted(SetUrl, Connections.Authorization(token), Stringify(s)))
  }

  /** The notice shown after the server answers. */
  datatype Notice = Info(text: string) | Failure(text: string)

  const SavedText := "Settings saved successfully"
  const FailedText := "Error in saving settings"

  /** The notice for the parsed answer `result`: the info toast when
      `result.success` is truthy, the error toast otherwise. Reading a
      property of `null` (or `undefined`) throws; the rejection is not
      handled, so no notice appears and the result is `None`. */
  function SaveNotice(body: Value<()>): (r: Option<Notice>)
    ensures r.None? <==> body.Null? || body.Undefined?
    ensures r.Some? ==> (r.value.Info? <==> Truthy(Get(body, "success")))
    ensures r.Some? && r.value.Info? ==> r.value.text == SavedText
    ensures r.Some? && r.value.Failure? ==> r.value.text == FailedText
  {
    if body.Null? || body.Undefined? then None
    else if Truthy(Get(body, "success")) then Some(Info(SavedText))
    else Some(Failure(FailedText))
  }

  /** Only the answer's `success` property matters: object answers that
      agree on it show the same notice, whatever else they carry. */
  lemma SaveNoticeOnlySuccess(a: map<string, Value<()>>, b: map<string, Value<()>>)
    requires ("success" in a <==> "success" in b)
    requires "success" in a ==> a["success"] == b["success"]
    ensures SaveNotice(Obj(a)) == SaveNotice(Obj(b))
    ensures SaveNotice(Obj(a)) == Some(Info(SavedText)) <==> "success" in a && Truthy(a["success"])
  {
  }

  /** An answer that is not an object, other than `null`, has no `success`
      property and always shows the error. */
  lemma SaveNoticeNonObject(body: Value<()>)
    requires !body.Obj? && !body.Null? && !body.Undefined?
    ensures SaveNotice(body) == Some(Failure(FailedText))
  {
  }

  /** A switch: its field becomes the negation of its truthiness, as a
      boolean; nothing else changes. */
  function Flip(s: Fields, k: Key): (r: Fields)
    ensures r.Keys == s.Keys + {k}
    ensures r[k] == Bool(!Truthy(Read(s, k)))
    ensures forall j :: j in s && j != k ==> r[j] == s[j]
  {
    s[k := Bool(!Truthy(Read(s, k)))]
  }

  /** Two flips give the field back its truthiness, as a boolean. */
  lemma FlipTwice(s: Fields, k: Key)
    ensures Truthy(Read(Flip(Flip(s, k), k), k)) == Truthy(Read(s, k))
    ensures Flip(Flip(s, k), k)[k] == Bool(Truthy(Read(s, k)))
  {
  }

  /** A limit input: its field takes the typed text; nothing else changes. */
  function SetText(s: Fields, k: Key, text: string): (r: Fields)
    ensures r.Keys == s.Keys + {k}
    ensures Read(r, k) == Str(text)
    ensures forall j :: j in s && j != k ==> r[j] == s[j]
  {
    s[k := Str(text)]
  }

  /** Typing into one limit does not disturb another limit or any switch. */
  lemma SetTextKeepsOthers(s: Fields, k: Key, text: string, j: Key)
    requires j != k
    ensures Read(SetText(s, k, text), j) == Read(s, j)
  {
  }

  /** On mount the stored object is replaced by whatever the list fetch
      gives, so a failed or unauthorised fetch leaves an empty list in its
      place and every switch reads as off. */
  lemma FailedLoadClearsSettings(token: Option<string>, response: Connections.Response<()>)
    requires response.Failed? || Connections.Unauthorized(response)
    ensures Connections.GetByType("settings", true, token, response).result == List([])
    ensures forall k :: !Truthy(Get(Connections.GetByType("settings", true, token, response).result, k))
  {
  }
}
