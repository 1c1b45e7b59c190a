/**
 * The page behind a generated link: finds the entry of `Data.json` whose id is the
 * route's key and lists its buttons; a click stores the button's URL for the
 * link page, provided it looks like a web address.
 */
module ButtonPage {
  import opened Wrappers
  import JsText
  import opened Remote
  import opened LinkData

  /** `data.find((item) => item.id === key)`: the first entry with that id. */
  function FindEntry(data: seq<Entry>, key: string): (r: Option<Entry>)
    ensures r.None? <==> forall i :: 0 <= i < |data| ==> data[i].id != key
    ensures r.Some? ==> exists i :: 0 <= i < |data| && data[i] == r.value
    ensures r.Some? ==> r.value.id == key
    decreases |data|
  {
    if data == [] then None
    else if data[0].id == key then Some(data[0])
    else
      var r := FindEntry(data[1..], key);
      assert forall i :: 0 < i < |data| ==> data[i] == data[1..][i - 1];
      r
  }

  /** The entry found is the first one with the key: every earlier entry has another id. */
  lemma {:induction false} FindEntryFirst(data: seq<Entry>, key: string) returns (i: nat)
    requires FindEntry(data, key).Some?
    ensures i < |data| && data[i] == FindEntry(data, key).value
    ensures forall k :: 0 <= k < i ==> data[k].id != key
    decreases |data|
  {
    if data[0].id == key {
      i := 0;
    } else {
      var j := FindEntryFirst(data[1..], key);
      i := j + 1;
    }
  }

  const FetchPrefix: string := "Error fetching data: "
  const InvalidUrl: string := "Invalid URL provided"

  /** `if (!url || typeof url !== "string" || !url.startsWith("http"))`, for a string `url`. */
  predicate ValidUrl(url: string) {
    url != "" && JsText.StartsWith(url, "http")
  }

  /** The emptiness test adds nothing: a URL is accepted exactly when it begins with "http". */
  lemma ValidUrlIffHttp(url: string)
    ensures ValidUrl(url) <==> JsText.StartsWith(url, "http")
  {
  }

  /** The page state: the listed buttons, the error shown, and the stored URL. */
  class ButtonPageState {
    var buttons: seq<LinkButton>
    var error: Option<string>
    /** The `selectedUrl` entry of the session storage. */
    var selectedUrl: Option<string>

    constructor()
      ensures buttons == [] && error == None && selectedUrl == None
    {
      buttons, error, selectedUrl := [], None, None;
    }

    /**
     * The effect on `key`: nothing without a key; otherwise `fetchButtons`, which
     * lists the buttons of the first matching entry, or reports why there are none.
     */
    method FetchButtons(key: Option<string>, response: Response<seq<Entry>>)
      modifies this
      ensures selectedUrl == old(selectedUrl)
      ensures key.None? || key == Some("") ==> buttons == old(buttons) && error == old(error)
      ensures key.Some? && key.value != "" ==>
        match response
        case Ok(data) =>
          (match FindEntry(data, key.value)
           case Some(entry) => buttons == entry.buttons && error == None
           case None => buttons == [] && error == Some("No buttons found for ID: " + key.value))
        case NotOk(_) => buttons == [] && error == Some(FetchPrefix + "Failed to fetch Data.json")
        case Rejected(message) => buttons == [] && error == Some(FetchPrefix + message)
    {
      if key.None? || key.value == "" {
        return;
      }
      match response {
        case Ok(data) =>
          var matched := FindEntry(data, key.value);
          if matched.None? {
            error := Some("No buttons found for ID: " + key.value);
            buttons := [];
          } else {
            buttons := matched.value.buttons;
            error := None;
          }
        case NotOk(_) =>
          error := Some(FetchPrefix + "Failed to fetch Data.json");
          buttons := [];
        case Rejected(message) =>
          error := Some(FetchPrefix + message);
          buttons := [];
      }
    }

    /**
     * `handleButtonClick`: an invalid URL only sets the error; a valid one is stored
     * (opening the new tab and the messages sent to it are left out).
     */
    method HandleButtonClick(url: string) returns (accepted: bool)
      modifies this
      ensures accepted <==> ValidUrl(url)
      ensures accepted ==> selectedUrl == Some(url) && error == old(error)
      ensures !accepted ==> selectedUrl == old(selectedUrl) && error == Some(InvalidUrl)
      ensures buttons == old(buttons)
    {
      if url == "" || !JsText.StartsWith(url, "http") {
        error := Some(InvalidUrl);
        return false;
      }
      selectedUrl := Some(url);
      return true;
    }
  }
}
