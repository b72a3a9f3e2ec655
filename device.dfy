/** Finding the microcontroller among the serial ports and waiting for its
    greeting. (touch_player.py, `arduino_port_name`, `arduino_hello`) */
module Device {
  import opened Text

  /** The greeting the microcontroller prints from its setup. */
  const Hello := "start"

  /** A serial port as the port listing describes it; the two text fields may be missing. */
  datatype PortInfo = PortInfo(device: string, manufacturer: Option<string>, product: Option<string>)

  /** `filter(None, [field])`: a missing or empty field contributes nothing. */
  function Present(field: Option<string>): (r: seq<string>)
    ensures |r| <= 1 && forall k :: 0 <= k < |r| ==> r[k] != ""
    ensures r == [] <==> field.None? || field.value == ""
    ensures field.Some? && field.value != "" ==> r == [field.value]
  {
    if field.Some? && field.value != "" then [field.value] else []
  }

  /** `' '.join(parts)`. */
  function JoinSpace(parts: seq<string>): (r: string)
    ensures |parts| == 0 ==> r == ""
    ensures |parts| == 1 ==> r == parts[0]
    ensures |parts| == 2 ==> r == parts[0] + " " + parts[1]
    ensures forall k :: 0 <= k < |parts| ==> Contains(r, parts[k])
  {
    if |parts| == 0 then ""
    else if |parts| == 1 then (ContainsOwnPrefix(parts[0], ""); assert parts[0] + "" == parts[0]; parts[0])
    else
      var rest := JoinSpace(parts[1..]);
      ContainsAfterPrefix(parts[0] + " ", rest, parts[1..]);
      ContainsOwnPrefix(parts[0], " " + rest);
      assert parts[0] + " " + rest == parts[0] + (" " + rest);
      assert forall k :: 1 <= k < |parts| ==> parts[k] == parts[1..][k - 1];
      assert |parts| == 2 ==> parts[1..] == [parts[1]];
      parts[0] + " " + rest
  }

  /** A field's text, empty when the field is missing. */
  function FieldText(field: Option<string>): string
  {
    if field.Some? then field.value else ""
  }

  /** The text searched for a vendor name: the present fields, space-joined.
      With both fields present it is `manufacturer + " " + product`, with one
      it is that field alone, with none it is empty. */
  function Descriptor(p: PortInfo): (r: string)
    ensures var m, pr := FieldText(p.manufacturer), FieldText(p.product);
      r == if m == "" then pr else if pr == "" then m else m + " " + pr
  {
    var parts := Present(p.manufacturer) + Present(p.product);
    assert |parts| == 2 ==> parts[1..] == [parts[1]];
    JoinSpace(parts)
  }

  /** The search `Arduino|Genuino|Lilypad`, ignoring case. Every vendor name
      has seven letters, so a shorter text never names one. */
  predicate NamesVendor(s: string)
    ensures NamesVendor(s) <==>
      exists w, i :: w in ["Arduino", "Genuino", "Lilypad"] && OccursAt(Lower(s), Lower(w), i)
    ensures NamesVendor(s) ==> |s| >= 7
  {
    ContainsIgnoreCase(s, "Arduino") || ContainsIgnoreCase(s, "Genuino") || ContainsIgnoreCase(s, "Lilypad")
  }

  /** Whether a text names a vendor does not depend on its case. */
  lemma NamesVendorIgnoresCase(s: string)
    ensures NamesVendor(Lower(s)) == NamesVendor(s)
  {
    LowerTwice(s);
  }

  /** The field test of `DescriptorMatchesAField`. */
  predicate FieldNamesVendor(field: Option<string>)
  {
    field.Some? && NamesVendor(field.value)
  }

  /** A port is taken when its descriptor names a vendor, or when the
      DEBUGUSEPORT override takes any port. */
  predicate Selected(p: PortInfo, debugUsePort: bool)
    ensures debugUsePort ==> Selected(p, debugUsePort)
    ensures !debugUsePort ==>
      (Selected(p, debugUsePort) <==> FieldNamesVendor(p.manufacturer) || FieldNamesVendor(p.product))
  {
    DescriptorMatchesAField(p);
    NamesVendor(Descriptor(p)) || debugUsePort
  }

  /** The device name of the first port that passes `sel`, if there is one. */
  function FirstMatching(ports: seq<PortInfo>, sel: PortInfo -> bool): (r: Option<string>)
    ensures r.None? <==> forall i :: 0 <= i < |ports| ==> !sel(ports[i])
    ensures r.Some? ==>
      exists i :: 0 <= i < |ports| && ports[i].device == r.value && sel(ports[i]) &&
        forall j :: 0 <= j < i ==> !sel(ports[j])
  {
    if ports == [] then None
    else if sel(ports[0]) then Some(ports[0].device)
    else
      var r := FirstMatching(ports[1..], sel);
      assert forall i :: 1 <= i < |ports| ==> ports[i] == ports[1..][i - 1];
      assert r.Some? ==>
        (exists i :: 1 <= i < |ports| && ports[i].device == r.value && sel(ports[i]) &&
           forall j :: 0 <= j < i ==> !sel(ports[j])) by {
        if r.Some? {
          var i :| 0 <= i < |ports| - 1 && ports[1..][i].device == r.value && sel(ports[1..][i]) &&
            forall j :: 0 <= j < i ==> !sel(ports[1..][j]);
          assert ports[i + 1] == ports[1..][i];
        }
      }
      r
  }

  /** The device name of the first selected port, if there is one. */
  function FirstSelected(ports: seq<PortInfo>, debugUsePort: bool): (r: Option<string>)
    ensures r.None? <==> forall i :: 0 <= i < |ports| ==> !Selected(ports[i], debugUsePort)
    ensures r.Some? ==>
      exists i :: 0 <= i < |ports| && ports[i].device == r.value && Selected(ports[i], debugUsePort) &&
        forall j :: 0 <= j < i ==> !Selected(ports[j], debugUsePort)
  {
    FirstMatching(ports, p => Selected(p, debugUsePort))
  }

  /** `arduino_port_name`: the ports in listing order, the first selected one wins. */
  method ArduinoPortName(ports: seq<PortInfo>, debugUsePort: bool) returns (r: Option<string>)
    ensures r == FirstSelected(ports, debugUsePort)
  {
    var i := 0;
    while i < |ports|
      invariant 0 <= i <= |ports|
      invariant FirstSelected(ports[i..], debugUsePort) == FirstSelected(ports, debugUsePort)
    {
      if Selected(ports[i], debugUsePort) {
        return Some(ports[i].device);
      }
      assert ports[i..][1..] == ports[i + 1..];
      i := i + 1;
    }
    return None;
  }

  /** The greeting appears somewhere in one of the lines. */
  predicate SawHello(lines: seq<string>)
    ensures SawHello(lines) <==> exists i, j :: 0 <= i < |lines| && OccursAt(lines[i], Hello, j)
  {
    exists i :: 0 <= i < |lines| && Contains(lines[i], Hello)
  }

  /** `arduino_hello`, with `lines` the lines that arrive within the time
      budget: succeed at the first line containing the greeting. `used` is
      the number of lines consumed. */
  method ArduinoHello(lines: seq<string>) returns (ok: bool, used: nat)
    ensures ok <==> SawHello(lines)
    ensures used <= |lines|
    ensures ok ==> 0 < used && Contains(lines[used - 1], Hello)
    ensures forall j :: 0 <= j < used - 1 || (!ok && 0 <= j < used) ==> !Contains(lines[j], Hello)
    ensures !ok ==> used == |lines|
  {
    used := 0;
    while used < |lines|
      invariant 0 <= used <= |lines|
      invariant forall j :: 0 <= j < used ==> !Contains(lines[j], Hello)
    {
      var line := lines[used];
      used := used + 1;
      if Contains(line, Hello) {
        return true, used;
      }
    }
    return false, used;
  }

  /** Folding a present field to lower case and joining distribute. */
  lemma DescriptorLower(m: string, p: string)
    ensures Lower(m + " " + p) == Lower(m) + [' '] + Lower(p)
  {
    LowerAppend(m + " ", p);
    LowerAppend(m, " ");
  }

  /** A vendor name has no space, so it is found in the joined descriptor
      exactly when one of the two fields holds it. */
  lemma NamesVendorAcrossJoin(m: string, p: string)
    ensures NamesVendor(m + " " + p) <==> NamesVendor(m) || NamesVendor(p)
  {
    DescriptorLower(m, p);
    var names := ["Arduino", "Genuino", "Lilypad"];
    forall k | 0 <= k < 3
      ensures ContainsIgnoreCase(m + " " + p, names[k])
          <==> ContainsIgnoreCase(m, names[k]) || ContainsIgnoreCase(p, names[k])
    {
      LowerKeepsNoSpace(names[k]);
      ContainsAcrossSeparator(Lower(m), ' ', Lower(p), Lower(names[k]));
    }
    assert names[0] == "Arduino" && names[1] == "Genuino" && names[2] == "Lilypad";
  }

  /** A port's descriptor names a vendor exactly when its manufacturer or its
      product field does: joining adds nothing and loses nothing. */
  lemma DescriptorMatchesAField(port: PortInfo)
    ensures NamesVendor(Descriptor(port)) <==> FieldNamesVendor(port.manufacturer) || FieldNamesVendor(port.product)
  {
    var m, pr := FieldText(port.manufacturer), FieldText(port.product);
    if m != "" && pr != "" {
      NamesVendorAcrossJoin(m, pr);
    }
  }

  lemma MatchExamples()
    ensures Selected(PortInfo("/dev/ttyACM0", Some("Arduino (www.arduino.cc)"), None), false)
    ensures !Selected(PortInfo("/dev/ttyS0", None, None), false)
    ensures Selected(PortInfo("/dev/ttyS0", None, None), true)
  {
    var s := "Arduino (www.arduino.cc)";
    assert Present(Some(s)) == [s];
    assert Lower(s)[0..7] == Lower("Arduino");
    assert OccursAt(Lower(s), Lower("Arduino"), 0);
  }
}
