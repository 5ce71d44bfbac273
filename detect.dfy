// Detection records of core/bright_lights.py: the threshold chosen by
// `_find_detections`, the record made for every peak of the cumulative
// network response, the `lat_lon_depth` node key written into each record
// and decoded again by `brightness`, and the station list (`realstations`)
// every record carries.

module Detect {
  import opened Seqs
  import opened Results
  import Grid

  // ---------------------------------------------------------------------
  // Threshold selection

  function AbsAll(xs: seq<real>): (r: seq<real>)
    ensures |r| == |xs|
    ensures forall t :: 0 <= t < |xs| ==> r[t] == Abs(xs[t])
  {
    seq(|xs|, t requires 0 <= t < |xs| => Abs(xs[t]))
  }

  /**
   * The detection threshold for mode `threshType`: the median absolute value
   * of the response times `threshold` ("MAD"), `threshold` itself ("abs"),
   * or the response's root mean square times `threshold` ("RMS"). Any other
   * mode leaves `thresh` unbound, which fails when it is next read.
   * `median` and `rms` stand for numpy's median and sqrt-of-mean-of-squares.
   */
  function Threshold(threshType: string, cnr: seq<real>, threshold: real,
                     median: seq<real> -> real, rms: seq<real> -> real): (r: Result<real>)
    ensures r.Ok? <==> threshType == "MAD" || threshType == "abs" || threshType == "RMS"
    ensures r.Err? ==> r.error == NameError
    ensures threshType == "abs" ==> r == Ok(threshold)
  {
    if threshType == "MAD" then Ok(median(AbsAll(cnr)) * threshold)
    else if threshType == "abs" then Ok(threshold)
    else if threshType == "RMS" then Ok(rms(cnr) * threshold)
    else Err(NameError)
  }

  /**
   * In every mode the threshold grows with the multiplier, as long as the
   * statistic it scales (median of |x|, RMS) is non-negative.
   */
  lemma ThresholdMonotone(threshType: string, cnr: seq<real>, t1: real, t2: real,
                          median: seq<real> -> real, rms: seq<real> -> real)
    requires t1 <= t2
    requires median(AbsAll(cnr)) >= 0.0 && rms(cnr) >= 0.0
    requires Threshold(threshType, cnr, t1, median, rms).Ok?
    ensures Threshold(threshType, cnr, t1, median, rms).value <= Threshold(threshType, cnr, t2, median, rms).value
  {
    if threshType == "MAD" {
      var m := median(AbsAll(cnr));
      assert m * t1 <= m * t2 by {
        assert m * t2 - m * t1 == m * (t2 - t1);
      }
    } else if threshType == "RMS" {
      var q := rms(cnr);
      assert q * t1 <= q * t2 by {
        assert q * t2 - q * t1 == q * (t2 - t1);
      }
    }
  }

  // ---------------------------------------------------------------------
  // Node keys

  /** `'_'.join` of the parts. */
  function Join(parts: seq<string>, sep: char): string
    requires |parts| >= 1
  {
    if |parts| == 1 then parts[0] else Join(parts[..|parts| - 1], sep) + [sep] + parts[|parts| - 1]
  }

  /** Python's `s.split(sep)` for a one-character separator: never empty, no part holds `sep`. */
  function Split(s: string, sep: char): (parts: seq<string>)
    ensures |parts| >= 1
    ensures forall k :: 0 <= k < |parts| ==> sep !in parts[k]
  {
    if |s| == 0 then [""]
    else
      var rest := Split(s[1..], sep);
      if s[0] == sep then [""] + rest
      else [[s[0]] + rest[0]] + rest[1..]
  }

  /** A prefix free of the separator glues onto the first part. */
  lemma {:induction false} SplitPrefix(a: string, rest: string, sep: char)
    requires sep !in a
    ensures Split(a + rest, sep) == [a + Split(rest, sep)[0]] + Split(rest, sep)[1..]
  {
    var tail := Split(rest, sep);
    if |a| > 0 {
      var s := a + rest;
      assert s[1..] == a[1..] + rest;
      assert s[0] == a[0] && a[0] != sep;
      SplitPrefix(a[1..], rest, sep);
      var inner := Split(s[1..], sep);
      assert Split(s, sep) == [[s[0]] + inner[0]] + inner[1..];
      assert inner == [a[1..] + tail[0]] + tail[1..];
      assert inner[0] == a[1..] + tail[0] && inner[1..] == tail[1..];
      assert [a[0]] + (a[1..] + tail[0]) == a + tail[0];
    } else {
      assert a + rest == rest;
      assert a + tail[0] == tail[0];
      assert [tail[0]] + tail[1..] == tail;
    }
  }

  /** Splitting `a + sep + b` separates `a` when `a` does not hold the separator. */
  lemma SplitAtSeparator(a: string, b: string, sep: char)
    requires sep !in a
    ensures Split(a + [sep] + b, sep) == [a] + Split(b, sep)
  {
    SplitPrefix(a, [sep] + b, sep);
    assert a + [sep] + b == a + ([sep] + b);
    assert ([sep] + b)[1..] == b;
    assert a + "" == a;
  }

  /** `lat + '_' + lon + '_' + depth`, the template name of a detection. */
  function NodeName(node: Grid.Node): string
  {
    Join([node.lat, node.lon, node.depth], '_')
  }

  lemma NodeNameSpelled(node: Grid.Node)
    ensures NodeName(node) == node.lat + ['_'] + node.lon + ['_'] + node.depth
  {
    var parts := [node.lat, node.lon, node.depth];
    assert parts[..2] == [node.lat, node.lon];
    assert [node.lat, node.lon][..1] == [node.lat];
    assert Join([node.lat], '_') == node.lat;
    assert Join([node.lat, node.lon], '_') == node.lat + ['_'] + node.lon;
    assert Join(parts, '_') == Join(parts[..2], '_') + ['_'] + node.depth;
  }

  /**
   * The node tuple `brightness` rebuilds from a template name: the first
   * three `'_'`-separated parts. A name with fewer parts fails on the index.
   */
  function DecodeName(name: string): (r: Result<Grid.Node>)
    ensures r.Err? <==> |Split(name, '_')| < 3
    ensures r.Ok? ==> '_' !in r.value.lat && '_' !in r.value.lon && '_' !in r.value.depth
  {
    var parts := Split(name, '_');
    if |parts| < 3 then Err(IndexError)
    else Ok(Grid.Node(parts[0], parts[1], parts[2]))
  }

  /** Decoding a node's name gives the node back when no component holds `'_'`. */
  lemma NameRoundTrip(node: Grid.Node)
    requires '_' !in node.lat && '_' !in node.lon && '_' !in node.depth
    ensures DecodeName(NodeName(node)) == Ok(node)
  {
    NodeNameSpelled(node);
    assert node.lat + ['_'] + node.lon + ['_'] + node.depth == node.lat + ['_'] + (node.lon + ['_'] + node.depth);
    SplitAtSeparator(node.lat, node.lon + ['_'] + node.depth, '_');
    SplitAtSeparator(node.lon, node.depth, '_');
    SplitPrefix(node.depth, "", '_');
    assert node.depth + "" == node.depth;
  }

  /**
   * With a `'_'` inside a component two different nodes share a name, and
   * decoding that name gives a third node.
   */
  lemma NameCollision(a: string, b: string, c: string, d: string)
    requires '_' !in a && '_' !in b && '_' !in c && '_' !in d
    ensures NodeName(Grid.Node(a + ['_'] + b, c, d)) == NodeName(Grid.Node(a, b + ['_'] + c, d))
    ensures DecodeName(NodeName(Grid.Node(a, b + ['_'] + c, d))) == Ok(Grid.Node(a, b, c))
  {
    var u: string := ['_'];
    NodeNameSpelled(Grid.Node(a + u + b, c, d));
    NodeNameSpelled(Grid.Node(a, b + u + c, d));
    var cd := c + u + d;
    var bcd := b + u + cd;
    var name := a + u + bcd;
    assert NodeName(Grid.Node(a + u + b, c, d)) == name;
    assert NodeName(Grid.Node(a, b + u + c, d)) == name;
    SplitPrefix(d, "", '_');
    assert d + "" == d;
    assert Split(d, '_') == [d];
    SplitAtSeparator(c, d, '_');
    assert Split(cd, '_') == [c, d];
    SplitAtSeparator(b, cd, '_');
    assert Split(bcd, '_') == [b, c, d];
    SplitAtSeparator(a, bcd, '_');
    assert Split(name, '_') == [a, b, c, d];
  }

  /** `nodes.index(node)`: the first position of the node, or ValueError. */
  function IndexOf(nodes: seq<Grid.Node>, node: Grid.Node): (r: Result<nat>)
    ensures r.Err? <==> node !in nodes
    ensures r.Err? ==> r.error == ValueError
    ensures r.Ok? ==>
      && r.value < |nodes| && nodes[r.value] == node
      && forall k :: 0 <= k < r.value ==> nodes[k] != node
  {
    if |nodes| == 0 then Err(ValueError)
    else if nodes[0] == node then Ok(0)
    else match IndexOf(nodes[1..], node)
      case Err(e) => Err(e)
      case Ok(i) => Ok(i + 1)
  }

  /**
   * Looking up a decoded template name finds the detection's own node, at
   * its first occurrence in the node list, when no component holds `'_'`.
   */
  lemma DecodedNodeLookup(nodes: seq<Grid.Node>, p: nat)
    requires p < |nodes|
    requires '_' !in nodes[p].lat && '_' !in nodes[p].lon && '_' !in nodes[p].depth
    ensures DecodeName(NodeName(nodes[p])).Ok?
    ensures IndexOf(nodes, DecodeName(NodeName(nodes[p])).value).Ok?
    ensures IndexOf(nodes, DecodeName(NodeName(nodes[p])).value).value <= p
    ensures nodes[IndexOf(nodes, DecodeName(NodeName(nodes[p])).value).value] == nodes[p]
  {
    NameRoundTrip(nodes[p]);
  }

  // ---------------------------------------------------------------------
  // Detection records

  /** A peak of the response, `(value, sample index)` as `find_peaks2` returns it. */
  datatype Peak = Peak(value: real, index: nat)

  /** The fields of the match-filter DETECTION record. */
  datatype Detection = Detection(templateName: string, detectTime: real, noChans: nat,
                                 detectVal: real, threshold: real, typ: string, chans: seq<string>)

  /** The record for one peak: the peak node's key, the peak time in seconds, the peak value. */
  function Record(peak: Peak, peakNodes: seq<Grid.Node>, thresh: real, sampRate: real,
                  realstations: seq<string>): Detection
    requires peak.index < |peakNodes| && sampRate != 0.0
  {
    Detection(NodeName(peakNodes[peak.index]), peak.index as real / sampRate, |realstations|,
              peak.value, thresh, "brightness", realstations)
  }

  /**
   * `_find_detections`: choose the threshold, then make one record per peak
   * that `findPeaks` (standing for `find_peaks2`, given the response, the
   * threshold and the window `templateLength * sampRate`) reports. An
   * unknown mode fails first (NameError); `max` of an empty response fails
   * next (ValueError); a peak with a zero sampling rate fails on the division.
   */
  method FindDetections(cnr: seq<real>, peakNodes: seq<Grid.Node>, threshold: real, threshType: string,
                        sampRate: real, realstations: seq<string>, templateLength: real,
                        median: seq<real> -> real, rms: seq<real> -> real,
                        findPeaks: (seq<real>, real, real) -> seq<Peak>)
    returns (r: Result<seq<Detection>>)
    requires |peakNodes| == |cnr|
    requires forall x, thr, w, k :: 0 <= k < |findPeaks(x, thr, w)| ==> findPeaks(x, thr, w)[k].index < |x|
    ensures Threshold(threshType, cnr, threshold, median, rms).Err? ==> r == Err(NameError)
    ensures Threshold(threshType, cnr, threshold, median, rms).Ok? && |cnr| == 0 ==> r == Err(ValueError)
    ensures Threshold(threshType, cnr, threshold, median, rms).Ok? && |cnr| > 0 ==>
      var thresh := Threshold(threshType, cnr, threshold, median, rms).value;
      var peaks := findPeaks(cnr, thresh, templateLength * sampRate);
      && (|peaks| > 0 && sampRate == 0.0 ==> r == Err(ZeroDivisionError))
      && (|peaks| == 0 || sampRate != 0.0 ==>
            && r.Ok? && |r.value| == |peaks|
            && forall k :: 0 <= k < |peaks| ==>
                 r.value[k] == Record(peaks[k], peakNodes, thresh, sampRate, realstations))
  {
    var t := Threshold(threshType, cnr, threshold, median, rms);
    if t.Err? {
      return Err(t.error);
    }
    var thresh := t.value;
    if |cnr| == 0 {
      return Err(ValueError);
    }
    var peaks := findPeaks(cnr, thresh, templateLength * sampRate);
    var detections: seq<Detection> := [];
    if |peaks| > 0 {
      for k := 0 to |peaks|
        invariant |detections| == k
        invariant k > 0 ==> sampRate != 0.0
        invariant forall m :: 0 <= m < k ==> detections[m] == Record(peaks[m], peakNodes, thresh, sampRate, realstations)
      {
        var peak := peaks[k];
        if sampRate == 0.0 {
          return Err(ZeroDivisionError);
        }
        var node := peakNodes[peak.index];
        NodeNameSpelled(node);
        detections := detections + [Detection(node.lat + "_" + node.lon + "_" + node.depth,
                                              peak.index as real / sampRate, |realstations|,
                                              peak.value, thresh, "brightness", realstations)];
      }
    }
    r := Ok(detections);
  }

  /**
   * Every record names the node that owns its peak and stamps the time of
   * the peak's sample; the name decodes back to that node.
   */
  lemma RecordFaithful(peak: Peak, peakNodes: seq<Grid.Node>, thresh: real, sampRate: real,
                       realstations: seq<string>)
    requires peak.index < |peakNodes| && sampRate != 0.0
    requires '_' !in peakNodes[peak.index].lat && '_' !in peakNodes[peak.index].lon
    requires '_' !in peakNodes[peak.index].depth
    ensures Record(peak, peakNodes, thresh, sampRate, realstations).detectTime * sampRate == peak.index as real
    ensures DecodeName(Record(peak, peakNodes, thresh, sampRate, realstations).templateName) == Ok(peakNodes[peak.index])
    ensures Record(peak, peakNodes, thresh, sampRate, realstations).noChans == |realstations|
  {
    NameRoundTrip(peakNodes[peak.index]);
  }

  // ---------------------------------------------------------------------
  // The station list of the records

  /** `stream.select(station=...)`, reduced to the station names of the selected traces. */
  function Select(streamStations: seq<string>, station: string): (r: seq<string>)
    ensures |r| > 0 <==> station in streamStations
  {
    if |streamStations| == 0 then []
    else Select(streamStations[..|streamStations| - 1], station)
         + (if streamStations[|streamStations| - 1] == station then [station] else [])
  }

  /** The stations, in order, that have at least one trace in the stream. */
  function ContributingStations(stations: seq<string>, streamStations: seq<string>): (r: seq<string>)
    ensures |r| <= |stations|
  {
    if |stations| == 0 then []
    else ContributingStations(stations[..|stations| - 1], streamStations)
         + (if stations[|stations| - 1] in streamStations then [stations[|stations| - 1]] else [])
  }

  /** `list += str` appends the characters of the string, one single-character string each. */
  function Characters(s: string): (r: seq<string>)
    ensures |r| == |s|
    ensures forall k :: 0 <= k < |s| ==> r[k] == [s[k]]
  {
    seq(|s|, k requires 0 <= k < |s| => [s[k]])
  }

  /** The list the as-written loop builds: the characters of every contributing station. */
  function CharactersOf(names: seq<string>): seq<string>
  {
    if |names| == 0 then [] else CharactersOf(names[..|names| - 1]) + Characters(names[|names| - 1])
  }

  function TotalLength(names: seq<string>): nat
  {
    if |names| == 0 then 0 else TotalLength(names[..|names| - 1]) + |names[|names| - 1]|
  }

  lemma {:induction false} CharactersOfLength(names: seq<string>)
    ensures |CharactersOf(names)| == TotalLength(names)
  {
    if |names| > 0 {
      CharactersOfLength(names[..|names| - 1]);
    }
  }

  /**
   * `realstations` as `brightness` builds it. With no station at all the
   * loop never binds `st`, and the `del st` after it fails.
   */
  method RealStations(stations: seq<string>, streamStations: seq<string>) returns (r: Result<seq<string>>)
    ensures |stations| == 0 ==> r == Err(NameError)
    ensures |stations| > 0 ==> r == Ok(CharactersOf(ContributingStations(stations, streamStations)))
  {
    var realstations: seq<string> := [];
    var stBound := false;
    for k := 0 to |stations|
      invariant realstations == CharactersOf(ContributingStations(stations[..k], streamStations))
      invariant stBound <==> k > 0
    {
      var before := ContributingStations(stations[..k], streamStations);
      assert stations[..k + 1][..k] == stations[..k];
      var station := stations[k];
      assert ContributingStations(stations[..k + 1], streamStations)
        == before + (if station in streamStations then [station] else []);
      if station in streamStations {
        assert (before + [station])[..|before|] == before;
        assert CharactersOf(before + [station]) == CharactersOf(before) + Characters(station);
      } else {
        assert before + [] == before;
      }
      var st := Select(streamStations, station);
      stBound := true;
      if |st| > 0 {
        realstations := realstations + Characters(station);
      }
    }
    assert stations[..|stations|] == stations;
    if !stBound {
      return Err(NameError);
    }
    r := Ok(realstations);
  }

  /**
   * One station "WVZ" with a trace gives the list `["W", "V", "Z"]`: every
   * record claims three channels and carries letters instead of the station.
   */
  lemma RealStationsCounterexample()
    ensures ContributingStations(["WVZ"], ["WVZ"]) == ["WVZ"]
    ensures CharactersOf(["WVZ"]) == ["W", "V", "Z"]
  {
    var none: seq<string> := [];
    assert ["WVZ"][..0] == none;
    var chars := Characters("WVZ");
    assert chars == ["W", "V", "Z"];
    assert CharactersOf(["WVZ"]) == CharactersOf(none) + chars;
  }

  /**
   * The intended list: exactly the stations that have a trace, each as a
   * whole name, in the order of the station list.
   */
  lemma {:induction false} ContributingStationsSpec(stations: seq<string>, streamStations: seq<string>)
    ensures forall s :: s in ContributingStations(stations, streamStations) <==> s in stations && s in streamStations
  {
    if |stations| > 0 {
      var init := stations[..|stations| - 1];
      ContributingStationsSpec(init, streamStations);
      assert stations == init + [stations[|stations| - 1]];
    }
  }

  /**
   * The station count a record carries, as written, is the total number of
   * characters in the contributing station names, not the number of stations.
   */
  lemma RealStationsCountsCharacters(stations: seq<string>, streamStations: seq<string>)
    ensures |CharactersOf(ContributingStations(stations, streamStations))|
      == TotalLength(ContributingStations(stations, streamStations))
  {
    CharactersOfLength(ContributingStations(stations, streamStations));
  }
}
