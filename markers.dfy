/**
 * Circle markers as plain records: what the dashboard hands to the map
 * library for each point it draws.
 */
module Markers {

  datatype Color = Red | Orange | Green | Blue

  /**
   * A marker radius. The Percentiles view divides by the largest mean;
   * when that is zero, floating point yields NaN or an infinity, which
   * the model keeps apart from every real radius.
   */
  datatype Radius = Finite(size: real) | NonFinite

  /** The popup text's content, before its two-decimal formatting. */
  datatype Popup =
    | ValuePopup(title: string, value: real)
    | LocationPopup(lat: real, lon: real, mean: real)

  datatype Marker = Marker(lat: real, lon: real, radius: Radius, color: Color, popup: Popup)
}
