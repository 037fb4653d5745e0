# MapTiler Landmarks: colour decoding and style-URL guard

A model of the two pieces of logic in the Landmarks sample app's map view
(`Landmarks/MapView.swift`) that do not call into the Mapbox SDK:

- **Packed-RGB colour decoding.** `UIColor(rgb:a:)` splits a packed Swift
  `Int` into three channels with `(rgb >> 16) & 0xFF`, `(rgb >> 8) & 0xFF`
  and `rgb & 0xFF`, and passes those channels and the alpha on to
  `UIColor(red:green:blue:a:)`. Both initialisers default the alpha to 1.0.
  The park polygon layer is painted with two such colours, `0x801A86` at
  0.3 and `0x4E0250` at 0.8.
- **Style-URL construction.** `makeUIView` reads the MapTiler key and stops
  with a precondition failure when it is absent. Otherwise it builds the
  style URL by appending the key verbatim to
  `https://api.maptiler.com/maps/outdoor/style.json?key=`.

Modules:

- `Wrappers` (`wrappers.dfy`): `Option` and `Result`.
- `Bits` (`bits.dfy`): Swift's 64-bit `Int` as the subset type `Int64`. The
  operators `>>` and `& 0xFF` are written arithmetically, as Euclidean
  division by `2^k` and `% 256`. This is exact for negative inputs too,
  because Euclidean division by a positive divisor rounds toward minus
  infinity, like an arithmetic shift. `Bit(x, i)` is an independent
  definition of bit `i` of the two's-complement expansion of `x`. Lemmas
  prove that the arithmetic forms have the bitwise meaning of the Swift
  operators.
- `ColorDecoding` (`color.dfy`): the two initialisers, stopped at the
  integer channels. Also the park paint constants, and the bounds,
  bit-field, round-trip and masking properties of the decoder.
- `MapViewSetup` (`map_view.dfy`): the key guard and the style-URL string.
  It also has the inverse (`KeyOfStyleUrl`), which reads the key back out of
  a URL.

## Model

| member | source | states |
|---|---|---|
| Bits.ShiftRight | Landmarks/MapView.swift:123-124 | `x >> k` on `Int` is the quotient by 2^k rounded toward minus infinity: `2^k * r <= x < 2^k * (r + 1)`, for negative `x` as well |
| Bits.Mask8 | Landmarks/MapView.swift:123-125 | `x & 0xFF` is in 0..255 and differs from `x` by a multiple of 256 |
| Bits.ShiftRightBits | Landmarks/MapView.swift:123-124 | bit `i` of `x >> k` is bit `k + i` of `x` in two's complement (sign extension included) |
| Bits.Mask8Bits | Landmarks/MapView.swift:123-125 | bit `i` of `x & 0xFF` is bit `i` of `x` when `i < 8` and clear otherwise |
| ColorDecoding.FromComponents | Landmarks/MapView.swift:112-118 | the integer channels reach the `UIColor` initialiser unchanged, with no clamping; the alpha is forwarded and defaults to 1.0 |
| ColorDecoding.FromRgb | Landmarks/MapView.swift:121-128 | for every `Int` input, negative ones included, all three channels lie in 0..255, and the alpha is forwarded unchanged |
| ColorDecoding.ChannelsAreBitFields | Landmarks/MapView.swift:123-125 | red is bits 16..23, green bits 8..15 and blue bits 0..7 of the input's two's-complement bits |
| ColorDecoding.RecombinesTo24BitInput | Landmarks/MapView.swift:121-128 | for `0 <= rgb <= 0xFFFFFF`, `red * 65536 + green * 256 + blue == rgb` |
| ColorDecoding.DecodesPacked | Landmarks/MapView.swift:121-128 | decoding the packed form of any three byte channels gives those channels back, so decoding is a bijection between 0..0xFFFFFF and channel triples |
| ColorDecoding.HighBitsIgnored | Landmarks/MapView.swift:123-125 | decoding `rgb` and decoding `rgb mod 2^24` give the same colour |
| ColorDecoding.ParkEnvelopePaint | Landmarks/MapView.swift:103-104 | the park fill is (128, 26, 134) at alpha 0.3 and the outline is (78, 2, 80) at alpha 0.8 |
| ColorDecoding.DefaultAlphaIsOpaque | Landmarks/MapView.swift:121-127 | omitting the alpha gives 1.0; the channels do not depend on the alpha |
| MapViewSetup.StyleUrl | Landmarks/MapView.swift:10-14 | fails with `MissingMapTilerKey` exactly when the key is absent, so no URL is built; otherwise the URL is the MapTiler outdoor-style prefix followed by the key, verbatim |
| MapViewSetup.KeyRoundTrip | Landmarks/MapView.swift:14 | the key can be read back out of the URL built from it unchanged, so it is inserted with no escaping |
| MapViewSetup.StyleUrlInjective | Landmarks/MapView.swift:14 | different keys give different style URLs |
| MapViewSetup.EveryStyleUrlHasPrefix | Landmarks/MapView.swift:10-14 | every URL the guard lets through starts with the MapTiler prefix and carries exactly the key that was read |

## Left out

- ColorDecoding.FromComponents: does not model the division of each channel by 255.0 into `CGFloat`, because that is floating point. The model stops at the integer channels.
- ColorDecoding.FromRgb: the alpha is a `real` passed through untouched. `CGFloat` rounding is not modelled.
- MapViewSetup.StyleUrl: models the URL string only. Whether `URL(string:)` accepts it (an optional URL) is not modelled.
- The Info.plist lookup of `MapTilerKey` (`Landmarks/LandmarksApp.swift:13-15`) is I/O. The key is an `Option<string>` parameter instead.
- The `Coordinator` (`Landmarks/MapView.swift:27-108`) is not modelled. It is a chain of Mapbox SDK calls whose behaviour lives in that library: adding shape sources, fill and symbol layers, and the marker image. Its paint constants are modelled (`ParkEnvelopePaint`).
- The background-to-main hand-off with `DispatchQueue` (`Landmarks/MapView.swift:40-53`) is not modelled, because it is concurrency.
- Bundle lookup and file reads of the GeoJSON resource are not modelled, because they are I/O. Their fatal failures are not modelled either.
- GeoJSON parsing with `MGLShape(data:encoding:)` is not modelled, because the parser is in the SDK.
- Camera fitting with 10-point padding and the 0.25 s fly-to animation are not modelled. They are floating-point viewport maths inside the SDK.
- The frame, autoresizing mask and delegate set on the new `MGLMapView` are not modelled, because they are SDK object configuration.
- `LandmarkDetail`, `CircleImage`, `LandmarksApp` and the preview providers are not modelled. They are declarative SwiftUI with no logic.
