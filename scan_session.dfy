/** The scan session of the App component: its five pieces of React state and the
    four events that change them. The camera library and the HTTP request are not
    modelled; what they report arrives as a method call, each event taking effect
    at once. */
module ScanSession {
  import opened Wrappers
  import opened PayloadParser

  const ScanningStatus: string := "Scanning..."
  const SuccessStatus: string := "Scan successful!"
  const FailedStatus: string := "Verification failed"
  const ErrorStatus: string := "Scan failed. Try again."

  /** What the scanner card shows. */
  datatype Screen = ScannerView | VerifyingView | SuccessView | FailureView

  /** The JSON body posted to `/scanner`. The request is posted even when a field
      is undefined; that field is then left out of the JSON. */
  datatype ScanRequest = ScanRequest(name: Option<string>, eventId: Option<string>)

  /** JavaScript truthiness of the stored `response.data.success`: `None` stands for
      `undefined` (the state's initial value, or a reply without the field). */
  predicate IsTruthy(result: Option<bool>)
    ensures result.None? ==> !IsTruthy(result)
    ensures result.Some? ==> (IsTruthy(result) <==> result.value)
  {
    result == Some(true)
  }

  /** The nested conditional that picks the screen: the scanner exactly while it is
      active, otherwise the spinner exactly while loading, otherwise the outcome
      the stored result stands for. */
  function SelectScreen(isScannerActive: bool, loading: bool, result: Option<bool>): (s: Screen)
    ensures s == ScannerView <==> isScannerActive
    ensures s == VerifyingView <==> !isScannerActive && loading
    ensures s == SuccessView <==> !isScannerActive && !loading && IsTruthy(result)
    ensures s == FailureView <==> !isScannerActive && !loading && !IsTruthy(result)
  {
    if isScannerActive then ScannerView
    else if loading then VerifyingView
    else if IsTruthy(result) then SuccessView
    else FailureView
  }

  /** The body `addData` posts for a decoded text: the `Name` and `Event Id` the
      parser finds in it, each undefined when absent. */
  method BuildRequest(data: string) returns (request: ScanRequest)
    ensures request.name == ToRecord(Parse(data)).name
    ensures request.eventId == ToRecord(Parse(data)).eventId
  {
    var fields := ParseStringToJson(data);
    var record := ToRecord(fields);
    request := ScanRequest(record.name, record.eventId);
  }

  class Session {
    var scannedData: Option<string>
    var isScannerActive: bool
    var scanStatus: string
    var result: Option<bool>
    var loading: bool
    /** Verification requests posted and not yet settled. */
    ghost var pending: nat

    /** What every reachable state satisfies: a payload is held exactly while the
        scanner is off, the spinner is on only while a request is outstanding, and
        the status is one of the four messages. */
    ghost predicate Valid()
      reads this
    {
      && (isScannerActive <==> scannedData.None?)
      && (loading ==> pending > 0)
      && scanStatus in {ScanningStatus, SuccessStatus, FailedStatus, ErrorStatus}
    }

    /** The initial `useState` values. */
    constructor ()
      ensures Valid()
      ensures scannedData == None && isScannerActive && scanStatus == ScanningStatus
      ensures result == None && !loading && pending == 0
    {
      scannedData := None;
      isScannerActive := true;
      scanStatus := ScanningStatus;
      result := None;
      loading := false;
      pending := 0;
    }

    /** The screen shown for the current state; whenever it is not the scanner,
        there is a scanned payload to show. */
    function CurrentScreen(): (s: Screen)
      reads this
      ensures Valid() ==> (s == ScannerView <==> scannedData.None?)
    {
      SelectScreen(isScannerActive, loading, result)
    }

    /** The "Scan Another Code" button is rendered exactly when the scanner is not. */
    predicate ShowsScanAgain()
      reads this
      ensures ShowsScanAgain() <==> CurrentScreen() != ScannerView
    {
      !isScannerActive
    }

    /** A QR code was decoded: remember the text, parse it and post its two
        fields, turn the spinner on and stop the scanner. The status is left as it
        was. */
    method OnDecoded(decodedText: string) returns (request: ScanRequest)
      requires Valid()
      modifies this
      ensures Valid()
      ensures scannedData == Some(decodedText) && !isScannerActive && loading
      ensures scanStatus == old(scanStatus) && result == old(result)
      ensures pending == old(pending) + 1
      ensures request.name == ToRecord(Parse(decodedText)).name
      ensures request.eventId == ToRecord(Parse(decodedText)).eventId
      ensures CurrentScreen() == VerifyingView
    {
      request := BuildRequest(decodedText);
      BeginVerification(decodedText);
    }

    /** The state changes of a decode: the payload is stored, the spinner turned on
        for the new request and the scanner stopped. */
    method BeginVerification(decodedText: string)
      requires Valid()
      modifies this
      ensures Valid()
      ensures scannedData == Some(decodedText) && !isScannerActive && loading
      ensures scanStatus == old(scanStatus) && result == old(result)
      ensures pending == old(pending) + 1
      ensures CurrentScreen() == VerifyingView
    {
      scannedData := Some(decodedText);
      loading := true;
      pending := pending + 1;
      isScannerActive := false;
    }

    /** The server answered with `success`: store it, set the status from its
        truthiness and turn the spinner off. */
    method OnVerificationResponse(success: Option<bool>)
      requires Valid() && pending > 0
      modifies this
      ensures Valid()
      ensures result == success && !loading && pending == old(pending) - 1
      ensures scanStatus == if IsTruthy(success) then SuccessStatus else FailedStatus
      ensures scannedData == old(scannedData) && isScannerActive == old(isScannerActive)
      ensures !isScannerActive ==> CurrentScreen() == if IsTruthy(success) then SuccessView else FailureView
    {
      result := success;
      scanStatus := if IsTruthy(success) then SuccessStatus else FailedStatus;
      loading := false;
      pending := pending - 1;
    }

    /** The request failed: set the error status and turn the spinner off. The
        stored result is kept, so the result of an earlier round decides between
        the success and the failure screen. */
    method OnTransportError()
      requires Valid() && pending > 0
      modifies this
      ensures Valid()
      ensures scanStatus == ErrorStatus && !loading && pending == old(pending) - 1
      ensures result == old(result)
      ensures scannedData == old(scannedData) && isScannerActive == old(isScannerActive)
      ensures !isScannerActive ==> CurrentScreen() == if IsTruthy(old(result)) then SuccessView else FailureView
    {
      scanStatus := ErrorStatus;
      loading := false;
      pending := pending - 1;
    }

    /** "Scan Another Code": forget the payload, restart the scanner and reset the
        status. The stored result and the spinner flag are left as they are. */
    method OnScanAgain()
      requires Valid()
      modifies this
      ensures Valid()
      ensures scannedData == None && isScannerActive && scanStatus == ScanningStatus
      ensures result == old(result) && loading == old(loading) && pending == old(pending)
      ensures CurrentScreen() == ScannerView && !ShowsScanAgain()
    {
      scannedData := None;
      isScannerActive := true;
      scanStatus := ScanningStatus;
    }
  }

  /** A successful round, scan again, a second decode, then a transport error:
      the stale result of the first round puts the success screen up. */
  method StaleResultScenario(firstText: string, secondText: string) returns (screen: Screen, shown: Option<string>)
    ensures screen == SuccessView && shown == Some(secondText)
  {
    var session := new Session();
    var firstRequest := session.OnDecoded(firstText);
    session.OnVerificationResponse(Some(true));
    session.OnScanAgain();
    var secondRequest := session.OnDecoded(secondText);
    session.OnTransportError();
    screen := session.CurrentScreen();
    shown := session.scannedData;
  }

  /** "Scan Another Code" is on screen while a request is outstanding; pressing it
      and then receiving the reply leaves the scanner running under the status of
      the round that was abandoned. */
  method OverlappingRoundsScenario(text: string) returns (buttonWhileVerifying: bool, screen: Screen, status: string)
    ensures buttonWhileVerifying
    ensures screen == ScannerView && status == SuccessStatus
  {
    var session := new Session();
    var request := session.OnDecoded(text);
    buttonWhileVerifying := session.ShowsScanAgain();
    session.OnScanAgain();
    session.OnVerificationResponse(Some(true));
    screen := session.CurrentScreen();
    status := session.scanStatus;
  }
}
