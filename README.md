# Meme captioner: a Dafny model

This project models the logic of a small meme-captioning page. The page comes in two
variants: a plain script (`script.js`) and a React component (`index.js`). A user
supplies an image file. The page asks a captioning service for a caption and shows it.
The user can request a new caption, start over with a new image, or download the
image with the caption burned in.

The modelled core:

- **Greedy caption wrap** (`WordWrap`). The caption is split on single spaces. Words are
  packed greedily into lines whose measured width stays within 90% of the image width.
  The text measurement is an uninterpreted `measure: string -> real`. The loop is
  `WordWrap.WrapLines`. It is proved equal to the specification `WordWrap.Wrap`, and
  the wrap's properties are proved about `Wrap`:
  - joining the lines with spaces gives back the caption;
  - the words of the lines are exactly the caption's words;
  - there is at least one line and no more lines than words;
  - every multi-word line fits the limit;
  - greedy maximality: no line could have taken the next line's first word;
  - for a measurement that grows with the text: a word wider than the limit is a line
    of its own, and a caption that fits as a whole is one line.
- **Caption drawing** (`Compositor`). This covers the font size `max(24, width/20)`,
  the baselines `50 + i * 1.2 * fontSize`, and the stroke-then-fill calls for each line.
  The plain page draws each line upper-cased; the React page draws it as it is.
- **Media-type label** (`MediaType.Normalize`). The plain page sends one of four
  accepted labels. `image/jpg` becomes `image/jpeg`, and anything else unknown becomes
  `image/jpeg`. The React page always sends `image/jpeg`.
- **Page state**. `ScriptPage.Session` holds the plain page's three variables
  (`currentImage`, `currentCaption`, `currentMediaType`). `ReactPage.MemeGenerator`
  holds the React component's `image` and `caption` state. Their handlers are methods:
  file choice, caption request, regenerate, reset and download.
- **String built-ins** (`Text`). These model JavaScript's `split`, `join`, `startsWith`,
  `trim` and `toUpperCase` on `seq<char>`.

Asynchronous steps are modelled as parameters of the handler that starts them:
- the data URL produced by the file reader;
- the outcome of the caption request (`Replied(text)` or `Failed`);
- the decoded image width and the canvas text measurement.

Each handler runs to completion. A request is returned as a value (`Request`: payload
and media type); it is not sent.

Three behaviours of the code worth noting:
- The caption is split on single spaces (`split(' ')`), not on any white space.
  Consecutive spaces therefore yield empty words, which are wrapped like any other word.
- The code does not skip an empty caption. It wraps it into one empty line and draws
  that line (`Compositor.EmptyCaptionDrawn`).
- On the plain page the wrap measures each line as it is (script.js:170-172), but it
  draws the upper-cased line (script.js:186-187). `WordWrap.WrapFits` therefore bounds
  the measured width of the line before upper-casing, not the width of the drawn text.
  An upper-cased line can be wider than the limit. The model follows the code.

## Model

| member | source | states |
|---|---|---|
| `Text.Split` | script.js:165 | `split(' ')` yields at least one part, and no part contains the separator |
| `Text.SplitJoin` | script.js:165 | joining the parts of a split with the separator gives back the string |
| `Text.JoinSplit` | index.js:116 | splitting a join of separator-free parts gives back the parts |
| `Text.SplitOfJoin` | index.js:116 | splitting a join of lines gives the words of each line, in order |
| `Text.TrimStart` | script.js:126 | the result is a suffix of the input; only white space was cut, and it starts with non-white |
| `Text.TrimEnd` | script.js:126 | the result is a prefix of the input; only white space was cut, and it ends with non-white |
| `Text.Trim` | script.js:126 | `trim()` keeps a prefix of what `TrimStart` leaves, cuts only white space after it, and leaves no white space at either end |
| `Text.TrimIdempotent` | index.js:83 | trimming a trimmed caption changes nothing |
| `Text.UpperChar` | script.js:186 | a lower-case letter becomes its capital (32 code points lower); every other character stays |
| `Text.ToUpper` | script.js:186 | `toUpperCase()` keeps the length, turns each lower-case letter into its capital, keeps every other character, and leaves no lower-case letter |
| `Text.StartsWith` | script.js:58 | `startsWith(prefix)` holds exactly when the string is the prefix followed by some rest |
| `Text.UpperJoin` | script.js:184-188 | upper-casing each line then joining with spaces equals upper-casing the joined text |
| `WordWrap.Fill` | index.js:118-130 | from any loop state, the loop commits at least one more line, and at most one per remaining word plus one; committed lines stay |
| `WordWrap.Wrap` | script.js:165-179 | the wrap yields at least one line and at most as many lines as words |
| `WordWrap.WrapLines` | index.js:116-130 | the loop's lines equal `Wrap`; they join back to the caption, number between 1 and the word count, fit and are greedy-maximal |
| `WordWrap.WrapJoin` | script.js:165-179 | joining the wrapped lines with single spaces gives back the caption exactly |
| `WordWrap.WrapWords` | index.js:116-130 | the lines' words, in order, are the caption's words: no word is split, dropped or moved |
| `WordWrap.FillJoin` | script.js:169-179 | each loop step keeps the join of committed lines, current line and remaining words |
| `WordWrap.FillFits` | script.js:170-177 | each loop step keeps every multi-word line within the limit |
| `WordWrap.WrapFits` | index.js:121-127 | every line of two or more words measures at most the limit |
| `WordWrap.FillMaximal` | script.js:170-175 | each loop step keeps the greedy property for the committed lines |
| `WordWrap.WrapMaximal` | index.js:121-125 | every line but the last, plus " " and the next line's first word, measures more than the limit |
| `WordWrap.OneWordCaption` | index.js:116-118 | a caption without spaces is one line, itself; the empty caption gives exactly `[""]` |
| `WordWrap.OversizeWordAlone` | index.js:120-130 | with growing measurement, a word wider than the limit is a line by itself and shares no line |
| `WordWrap.WholeCaptionFits` | script.js:167-179 | with growing measurement, a caption within the limit as a whole is wrapped into the single line `[caption]` |
| `WordWrap.OneWordPerLine` | script.js:169-179 | when no two neighbouring words fit together, the lines are exactly the words |
| `WordWrap.MeasureJoin` | index.js:121-122 | with growing measurement, a joined line measures at least as much as any of its words |
| `Compositor.FontSize` | index.js:109 | the font size is at least 24 and at least width/20, and is one of the two |
| `Compositor.WrapLimit` | index.js:123 | the wrap limit `width * 0.9` is between 0 and the width, and strictly below a non-zero width |
| `Compositor.LineY` | index.js:136 | the first line's baseline is 50; for a non-negative font size no baseline is above 50 |
| `Compositor.LineYIncreasing` | index.js:132-136 | baselines strictly increase with the line index, at least 28.8 pixels per line |
| `Compositor.DrawLines` | index.js:135-139 | line i is stroked then filled with the same text at x and y = 50 + i * 1.2 * fontSize, nothing else drawn |
| `Compositor.RenderCaption` | script.js:158-188 | the drawing calls depict `Wrap(caption)` at 90% of the width, centred at width/2, at font size `max(24, width/20)` |
| `Compositor.DrawnCaption` | script.js:184-188 | the drawn lines, joined with spaces, are the caption, upper-cased on the plain page and unchanged on the React page |
| `Compositor.EmptyCaptionDrawn` | index.js:116-138 | an empty caption is drawn as one empty stroke and one empty fill at y = 50 |
| `MediaType.Normalize` | script.js:87-95 | the label is one of the four accepted types; accepted types pass unchanged, all others (`image/jpg` included) become `image/jpeg` |
| `MediaType.NormalizeIdempotent` | script.js:89-95 | normalizing twice equals normalizing once |
| `MediaType.NormalizeFixedPoints` | script.js:93-95 | a label is unchanged exactly when it is one of the four accepted types |
| `Captioning.CaptionAfter` | script.js:126-131 | after a failed request the caption is exactly the placeholder; after a reply it is the trimmed text; either way it has no white space at its ends |
| `Captioning.Loaded` | index.js:93 | JavaScript truthiness of the image slot: `null` and `""` are false, every other string is true |
| `Captioning.Payload` | script.js:84 | `split(',')[1]` is defined exactly when the data URL has a comma, and then holds no comma |
| `Captioning.PayloadOfDataUrl` | index.js:53 | for a data URL `header,body` the payload is `body` |
| `ScriptPage.Session.constructor` | script.js:1-3 | the page starts with no image, an empty caption and `image/jpeg` |
| `ScriptPage.Session.HandleFile` | script.js:57-75 | a non-image file changes nothing and sends nothing; an image file sets the media type, the image and the caption, and sends the normalized type |
| `ScriptPage.Session.GenerateCaption` | script.js:84-131 | the request carries the payload and the normalized type; the caption becomes the trimmed reply or exactly the placeholder |
| `ScriptPage.Session.Regenerate` | script.js:141-145 | without a loaded image nothing is sent and the caption stays; otherwise the current image is captioned again |
| `ScriptPage.Session.Reset` | script.js:199-201 | the image becomes null and the caption empty; the media type is untouched |
| `ScriptPage.Session.Download` | script.js:147-197 | without an image nothing is drawn; otherwise the upper-cased wrapped caption is drawn |
| `ReactPage.MemeGenerator.constructor` | index.js:5-6 | the component starts with no image and an empty caption |
| `ReactPage.MemeGenerator.HandleFile` | index.js:39-48 | a non-image file changes nothing and sends nothing; an image file sets the image and the caption, and is sent as `image/jpeg` |
| `ReactPage.MemeGenerator.GenerateCaption` | index.js:50-88 | the request is always labelled `image/jpeg`; the caption becomes the trimmed reply or exactly the placeholder |
| `ReactPage.MemeGenerator.RegenerateCaption` | index.js:92-96 | without a loaded image nothing is sent and the caption stays; otherwise the current image is captioned again |
| `ReactPage.MemeGenerator.Reset` | index.js:233-237 | the image becomes null and the caption empty |
| `ReactPage.MemeGenerator.DownloadMeme` | index.js:98-148 | without an image nothing is drawn; otherwise the wrapped caption is drawn as it is, not upper-cased |

## Left out

- The network call to the captioning service is not modelled. Its outcome is a parameter.
  The request body's fixed parts (model name, token bound, instruction text) are not
  modelled either.
- The file reader, data-URL decoding and image loading are asynchronous browser I/O.
  The data URL and the decoded width are parameters.
- A request issued while another is in flight is not modelled, and neither is the order
  in which overlapping replies land. The code has no guard to model, and this is
  concurrency.
- Canvas rendering is not modelled: drawing the image, font face, colours, line width,
  PNG encoding and the download link. Only the text calls (`strokeText`, `fillText`)
  and their arguments are modelled.
- Floating point is not modelled. `0.9 * width`, `width / 20` and `fontSize * 1.2` are
  exact Dafny reals, and `measure` returns a real.
- `Text.Trim`: removes only the ASCII white space (tab, line feed, vertical tab, form
  feed, carriage return, space), not all Unicode white space that JavaScript's `trim`
  removes.
- `Text.ToUpper`: upper-cases only ASCII letters, while JavaScript's `toUpperCase` also
  maps other letters and can change the length of a string.
- UI state and side effects are not modelled: drag highlighting, shown and hidden
  panels, the loading indicator, the `loading` state of the React page, disabled
  buttons, the alert for a refused file, clearing the file input, and the
  `console.error` logging of a failed request (script.js:130, index.js:86).
- As a consequence, `ReactPage.MemeGenerator.DownloadMeme` is modelled without the
  button's `!caption` guard (index.js:225). The handler itself draws an empty caption
  as one empty line.
- `WordWrap.OversizeWordAlone`, `WordWrap.WholeCaptionFits`: these assume a measurement
  that does not shrink when text is added around a space (`Monotone`). The page's own
  measurement is not constrained anywhere else.
