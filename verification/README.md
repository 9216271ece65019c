# Verified models of posh-term, posh-rec and mosh cores

This project models the parts of the repository that compute: the terminal emulator and its
serializer, the DEFLATE and PNG decoders, the graphics store, the OCB cipher mode, the receiving side
of the state synchronization protocol, the keystroke prediction engine, and the recorder and player of
terminal sessions. Each model follows its source file branch by branch. Code that updates state in
place is a class or a method with loops, proved equal to a function of the old state; what the source
promises is then proved of these functions, for all inputs and over whole runs. Modules named
`...Laws` say what single operations do, position by position, without naming the functions that do it.

`dafny verify dfyconfig.toml` checks everything. `sequences.dfy` holds two facts several modules share.

## The models

- **Terminal** (`utf8`, `parser`, `parser_laws`, `cell`, `sgr`, `screen`, `reflow`, `drawing`, `machine`,
  `terminal`, `csi_laws`, `terminal_laws`). Bytes go through the DEC and UTF-8 parser (class `Parser`)
  into actions; class `Terminal` performs them on two screens (class `Screen`). `machine.dfy` holds the
  same steps as functions on values, and `terminal.dfy` proves that the methods compute them. The
  invariant of the whole machine, over every byte stream and every resize, is
  `TerminalProofs.AlwaysHealthy`. `CsiLaws` has every control sequence of the screen cell by cell, and
  `TerminalLaws.AppLeavesNoTrace` is about whole programs.
- **Serializer** (`dump`, `dump_proofs`, `dump_cursor`). Class `Emitter` prints a grid and a cursor;
  `DumpProofs` follows the printed bytes through the parser and the drawing actions. The round trip is
  the identity exactly on grids without a DEL among combining characters where every soft-wrapped row is
  followed by a row that prints something.
- **Reflow** (`reflow`, `reflow_proofs`, `reflow_path`, `reflow_cursor`, `screen_proofs`). Rewrapping
  keeps the logical lines, `ReflowProofs.ScreenText` for all text; a width that moves no wide character
  to a new row, as any width does on width-1 text, can be passed through without a trace. The cursor
  stays on its character at every width (`ReflowCursor.CursorFollows`).
- **Decoders** (`huffman`, `inflate`, `inflate_proofs`, `inflate_streams`, `inflate_exact`,
  `inflate_laws`, `adler`, `zlib`, `png`, `png_decode`, `png_laws`). Encoders are specified as bit
  strings and byte strings after RFC 1950, RFC 1951 and RFC 2083, and the decoders are proved to invert
  them; `PngDecode.DecodesBack` joins all of them. They accept nothing else:
  `InflateExact.InflatesExactly`, `Zlib.UnpacksExactly` and `PngLaws.ScansExactly` are equivalences, and
  input cut anywhere is reported as such.
- **Graphics** (`pixels`, `graphics`, `graphics_proofs`, `graphics_laws`, `graphics_state`). Accounting,
  quota, composition and deletion over the whole command language; `GraphicsLaws.CommandDeletes` says
  which placements and images every delete is about, `GraphicsLaws.CycleFound` that the bounded walk
  along parents is enough, `GraphicsLaws.ChunksAreWhole` that chunks do not matter.
- **OCB** (`ocb`, `ocb_proofs`, `ocb_laws`, `ocb_context`). RFC 7253 one block at a time, in closed form
  (`OcbLaws.EncryptsAs`: offsets follow the Gray code), and class `Context` with batches of four, cached
  stretch, buffers in place and incremental calls.
- **Transport** (`transport`, `transport_proofs`). The receiver under loss, duplication and reordering;
  states are logs of events. Besides safety, what arrives and is taken is read by the next query
  (`TransportProofs.TakenIsRead`).
- **Prediction** (`prediction`, `prediction_engine`, `prediction_laws`, `prediction_verdicts`,
  `prediction_proofs`, `prediction_runs`). The overlay as functions, what every key and every verdict
  does, class `PredictionEngine` with its fields, and the epochs over whole runs. The run invariant
  carries a wall: a point in the epochs with nothing alive between its two sides.
- **Recordings** (`json`, `json_grammar`, `castx`, `castx_proofs`, `castx_lines`, `castx_read`,
  `castx_laws`, `player`, `player_proofs`, `player_stops`). Writing and reading back whole files, the
  reader of JSON against a grammar (`JsonGrammar.ParsesExactly`), and every way of stepping through a
  recording and where it stops.

## Where the code differs from its promise

These are stated as exact conditions, each with an input that shows it; `witnesses.dfy` reaches those
of the terminal from a new one, by bytes and resizes.

- A soft wrap at the end of a grid, or before a row that prints nothing, is lost in a dump
  (`DumpProofs.SettledExact`, `DumpCursor.FlagLost`; `Witnesses.WrapLost`). So is a pending wrap that a
  restored cursor carries away from the last column (`DumpCursor.FlatRoundTrip`; `Witnesses.PendingLost`),
  and a DEL that an OSC 66 text joins to a cell (`DumpProofs.GridRoundTrip`; `Witnesses.DelLost`).
- Erasing a range, and a wide character at the edge, can leave half of a wide character
  (`TerminalProofs.ErasePairs`, `TerminalProofs.PrintPairs`; `Witnesses.EraseTears`,
  `Witnesses.PrintTearsOnce`).
- Shrinking the height can take the cursor's own row (`ScreenProofs.CursorRowKept`; `Witnesses.RowTaken`).
- A trailing empty logical line is dropped by reflow (`ReflowPath.LinesKeptExactly`; `Witnesses.LineLost`),
  and `ReflowPath.PathIndependent` says when that makes the way to a width matter. The blank that moves a
  wide character to a new row stays in the text (`ReflowPath.LinesKept`; `Witnesses.WayMatters`).
- A recording that ends in an empty output event close enough to the one before makes a frame step run
  forever (`PlayerProofs.FrameLoops`; `PlayerProofs.FrameLoopsOnce`).
- In a recording without output, resizes are applied only by a call that flushes them
  (`PlayerProofs.EveryPathReplays`; `PlayerProofs.ResizeUnapplied`). Stepping to a marker at the cursor
  succeeds without moving (`PlayerProofs.MarkerStays`; `PlayerProofs.MarkerStaysOnce`).
- The size check of transmitted images multiplies in 64 bits and can wrap
  (`GraphicsProofs.CheckMeansSize`; `GraphicsProofs.CheckWraps`), as can the size limit of PNG headers
  (`PngDecode.LimitMeans`; `PngDecode.LimitWraps`); no pixels come of the latter, but the decoder can
  panic (`PngDecode.FourBytes`, `PngDecode.PanicsWrapped`).

## Model

| member | source | states |
|---|---|---|
| `Utf8.LossyEncodeAll` | crates/posh-term/src/parser.rs:154-201 | Decoding an encoded text gives the text back, and encodings are well-formed; the decoder is the one the parser, the recorder and the JSON reader share. |
| `Utf8.EncodeLossy` | crates/posh-rec/src/castx.rs:299-346 | On well-formed bytes the lossy decoder loses nothing: encoding its result gives the bytes. |
| `Utf8.NextStable` | crates/posh-rec/src/castx.rs:299-346 | What a decoder has decided about a prefix stays decided whatever bytes follow; only an incomplete tail is open. |
| `VtParser.Parser.AdvanceByte` | crates/posh-term/src/parser.rs:112-130 | One byte through the 15-state machine, fields updated in place: new fields and emitted actions are those of the step function. |
| `VtParserProofs.ParseBounded` | crates/posh-term/src/parser.rs:302-347 | No byte stream makes parameters, subparameters, intermediates or string buffers exceed their limits, and every parameter delivered is a 16-bit number. |
| `VtParserProofs.ParseAppend` | crates/posh-term/src/parser.rs:112-130 | Parsing is compositional: where the stream is cut makes no difference to actions or final state. |
| `VtParserProofs.PrintsChar` | crates/posh-term/src/parser.rs:154-201 | Every character outside C0 and DEL, sent as UTF-8 bytes to an idle parser, comes out as exactly one print action of itself. |
| `VtParserProofs.ParsesMarked` | crates/posh-term/src/parser.rs:302-347 | Any private marker, parameter list and intermediates within the limits, printed as a control sequence, are parsed back as one CSI action with exactly these and the final byte. |
| `Utf8.MaximalPart` | crates/posh-rec/src/castx.rs:299-346 | Bytes that begin a character and cannot be completed to one are decoded to one replacement for their maximal part, as section 3.9 of the Unicode Standard advises, and decoding goes on after it. |
| `ParserLaws.SequenceControls` | crates/posh-term/src/parser.rs:223-243 | Inside a sequence CAN and SUB cancel it, ESC begins another, and other C0 controls are carried out at once, the sequence going on; in the header of a DCS string they are dropped. |
| `ParserLaws.EightBitAlike` | crates/posh-term/src/parser.rs:203-221 | The 8-bit introducers do what their two-character forms do. |
| `ParserLaws.ParsesEscape` | crates/posh-term/src/parser.rs:245-300 | ESC, any number of intermediates and a final byte come out as one escape action, with the first two intermediates. |
| `ParserLaws.ParsesOsc` | crates/posh-term/src/parser.rs:434-462 | An OSC string of any plain bytes within the limit comes out as one action, ended by BEL or by ESC. |
| `ParserLaws.ParsesApc` | crates/posh-term/src/parser.rs:464-477 | The same for APC strings, to which BEL belongs. |
| `ParserLaws.Skips` | crates/posh-term/src/parser.rs:479-601 | SOS and PM strings, and DCS strings whose header is broken, report nothing up to their end. |
| `ParserLaws.BrokenCsi` | crates/posh-term/src/parser.rs:380-432 | A control sequence with a private marker after parameters, or a parameter after an intermediate, reports nothing and is over with its final byte. |
| `ParserLaws.BrokenShown` | crates/posh-term/src/parser.rs:154-201 | A byte that cannot begin a character, and a character broken off, show one replacement each; the byte that breaks one is read anew. |
| `ParserLaws.CollectedShown` | crates/posh-term/src/parser.rs:154-201 | Bytes of the announced number print exactly one character: the one they encode, or else one replacement. |
| `Sgr.TextOfStyle` | crates/posh-term/src/dump.rs:13-93 | The text `sgr_params` builds, piece by piece, is the printed form of the parameter list a style stands for. |
| `Sgr.ParamsFit` | crates/posh-term/src/dump.rs:13-93 | No style has more parameters or larger values than the parser accepts: its cap is never hit. |
| `Sgr.StyleOfParams` | crates/posh-term/src/csi.rs:628-754 | Reading the parameter list of a style yields that style from every pen; only the DECSCA flag of the pen stays. |
| `Sgr.StyleRoundTrip` | crates/posh-term/src/dump.rs:13-93 | Bytes to pen: the text sent through the parser arrives as one SGR action that sets the pen to the style. |
| `Sgr.WeightSet` | crates/posh-term/src/csi.rs:628-713 | SGR 1, 2, 21 and 22: bold and faint, as section 8.3.117 of ECMA-48 numbers them. |
| `Sgr.SlantSet` | crates/posh-term/src/csi.rs:628-713 | SGR 3, 23, 5, 6 and 25: italic and blinking. |
| `Sgr.ShadeSet` | crates/posh-term/src/csi.rs:628-713 | SGR 7, 27, 8 and 28: inverse and concealed. |
| `Sgr.StrikeSet` | crates/posh-term/src/csi.rs:628-713 | SGR 9, 29 and 0: struck out, and everything reset but the DECSCA flag. |
| `Sgr.UnderlineSet` | crates/posh-term/src/csi.rs:628-713 | SGR 4 with its subparameters, and 24: the underline styles. |
| `Sgr.ColorSet` | crates/posh-term/src/csi.rs:628-713 | SGR 30 to 37 and 90 to 97: the sixteen foreground colors. |
| `Sgr.GroundSet` | crates/posh-term/src/csi.rs:628-713 | SGR 40 to 47 and 100 to 107: the backgrounds. |
| `Sgr.DefaultSet` | crates/posh-term/src/csi.rs:628-713 | SGR 39, 49 and 59: the default colors. |
| `Sgr.ExtendedSet` | crates/posh-term/src/csi.rs:715-754 | SGR 38, 48 and 58, with 5 or 2, as parameters or as subparameters with or without a color space: palette and RGB colors of the right ground. |
| `ReflowProofs.ReflowShape` | crates/posh-term/src/screen.rs:250-425 | Rewrapping any screen, paired or not, to any width gives rows of exactly that width with wide heads and spacers only in pairs, and keeps the numbers of rows and the scrollback limit. |
| `ReflowProofs.TextKept` | crates/posh-term/src/screen.rs:262-381 | Every logical line, wide characters included, becomes exactly one logical line: its characters flowed at the new width, with one blank only where a wide one would start in the last column, and blanks at the end. |
| `ReflowProofs.ScreenText` | crates/posh-term/src/screen.rs:250-425 | The same on screens: the rows of any reflowed screen are, between what was evicted in front and cut below a cursor on the top row, rows of a text with the old logical lines flowed anew, and blank rows; with nothing evicted or cut its logical lines are these. |
| `ReflowProofs.PlaceSlices` | crates/posh-term/src/screen.rs:396-425 | The new screen holds a contiguous part of the laid-out rows and then blank rows; rows go only at the front past the scrollback limit or at the end below a cursor kept on screen. |
| `ReflowPath.LinesKept` | crates/posh-term/src/screen.rs:250-425 | On text whose wide characters are whole, with nothing evicted or cut: reading the logical lines of the new screen gives the old ones up to the last that shows something or holds the cursor, with the cursor on the same cell, if and only if no wide character is moved to a new row or blanked. |
| `ReflowPath.LinesKeptExactly` | crates/posh-term/src/screen.rs:250-425 | All logical lines and the cursor cell survive then if and only if, besides, the last logical line is not empty. |
| `ReflowPath.PathIndependent` | crates/posh-term/src/screen.rs:250-425 | Going through an intermediate width that moves and blanks no wide character, evicts and cuts nothing, equals reflowing directly to any width, screen and cursor, if and only if the empty lines it drops would neither scroll the text nor show a prompt mark; so always when the last line is not empty. |
| `ReflowPath.SeamlessMeans` | crates/posh-term/src/screen.rs:301-381 | A line moves no wide character at a width if and only if its characters flowed at that width are its characters, no blank added. |
| `ReflowPath.NarrowFits` | crates/posh-term/src/screen.rs:250-425 | Text of width-1 characters meets both conditions at every width. |
| `ReflowCursor.CursorFollows` | crates/posh-term/src/screen.rs:288-425 | On any screen and at any width the cursor stays on its character: on the same cell, on the second half of the same wide character, or on the blank in its place where there is only one column. |
| `Screens.Screen.ReflowTo` | crates/posh-term/src/screen.rs:250-425 | The nested loops over lines and cells, in place, end in the screen and cursor of the closed form. |
| `Screens.WrapLine` | crates/posh-term/src/screen.rs:301-381 | The inner loop over one line (`j`, `cur`, `new_rows`) lays it out as the recursive definition does. |
| `Screens.Screen.ScrollRegion` | crates/posh-term/src/screen.rs:146-162 | Removing and inserting row by row, with the scrollback ring, is the closed form: the region shifted by n, blanks below, the lost rows saved oldest first. |
| `Screens.Screen.ScrollBack` | crates/posh-term/src/screen.rs:165-175 | The same for scrolling down. |
| `Screens.Screen.ResizeTo` | crates/posh-term/src/screen.rs:192-244 | Width first, then height by single rows: the loops end in the closed form, screen and cursor. |
| `ScreenProofs.ResizeOk` | crates/posh-term/src/screen.rs:192-244 | Any resize of a well-formed screen gives a well-formed screen of the requested size, at least 1 by 1, with the cursor inside and the scrollback within its limit. |
| `ScreenProofs.ShortenClosed` | crates/posh-term/src/screen.rs:210-231 | The shrinking loop in closed form: blank rows below the cursor first, then only top rows. |
| `ScreenProofs.ShrinkConserves` | crates/posh-term/src/screen.rs:210-231 | What remains after shrinking is a contiguous part of scrollback and grid; what is cut below is blank; rows are lost at the front only when the scrollback is full. |
| `ScreenProofs.CursorRowKept` | crates/posh-term/src/screen.rs:210-231 | Shrinking keeps the cursor on its own row if and only if the rows that show something fit above the new height plus the cursor row. |
| `ScreenProofs.GrowConserves` | crates/posh-term/src/screen.rs:232-244 | Growing gives the newest scrollback rows back and appends blank rows only when none is left; the cursor stays on its row. |
| `Drawing.Print` | crates/posh-term/src/terminal.rs:274-355 | Printing any character on any well-formed screen keeps the cursor inside, every row full width, and all limits. |
| `TerminalProofs.RepairPairs` | crates/posh-term/src/terminal.rs:393-410 | One left-to-right repair pass makes any row well-formed. |
| `TerminalProofs.RepairSettles` | crates/posh-term/src/terminal.rs:393-410 | A repair pass changes a row if and only if it is not well-formed, so a second pass changes nothing. |
| `TerminalProofs.CleanedAt` | crates/posh-term/src/terminal.rs:359-387 | Before a write exactly the two halves it would cut off are blanked, and no other cell outside the write. |
| `TerminalProofs.WritePairs` | crates/posh-term/src/terminal.rs:317-345 | Cleaning and writing a character that fits keeps wide pairs whole, whatever is overwritten. |
| `TerminalProofs.PrintPairs` | crates/posh-term/src/terminal.rs:274-355 | On two or more columns printing leaves all rows well-formed if and only if no wide character wraps over a spacer in the last column, or the row it tears leaves a one-row region or is written over at once. |
| `TerminalProofs.EdgePairs` | crates/posh-term/src/terminal.rs:300-309 | Blanking the last cell for a wide character that does not fit breaks a pair if and only if that cell is a spacer. |
| `TerminalProofs.ErasePairs` | crates/posh-term/src/csi.rs:278-330 | Erasing a range, selectively or not, leaves a row well-formed if and only if it blanks both halves of a pair or neither; without selection, if and only if neither end of the range cuts a pair. |
| `Terminals.Terminal.RepairWide` | crates/posh-term/src/terminal.rs:393-410 | The pass in place, cell by cell, is the repaired row. |
| `Terminals.Terminal.CleanWide` | crates/posh-term/src/terminal.rs:359-387 | The blanking loop in place is the cleaned row. |
| `Terminals.Terminal.PrintChar` | crates/posh-term/src/terminal.rs:274-355 | Charset, wrap, insert, clean, write and cursor advance in place end in the machine state of the print function. |
| `Terminals.Terminal.Execute` | crates/posh-term/src/terminal.rs:456-492 | C0 controls in place are the control function. |
| `Terminals.Terminal.DispatchCsi` | crates/posh-term/src/csi.rs:9-197 | Movement, erasing, editing, scrolling, margins, tabs, modes and SGR, each in place, end in the state of the step function. |
| `CsiLaws.EdWipes` | crates/posh-term/src/csi.rs:258-310 | ED and DECSED, cell by cell: modes 0, 1 and 2 blank, in the background of the pen, exactly the unprotected cells at or after the cursor, at or before it, or everywhere; wrap flags, other cells and the cursor stay; mode 3 empties the scrollback only. |
| `CsiLaws.ElWipes` | crates/posh-term/src/csi.rs:312-330 | EL and DECSEL likewise, in the cursor row. |
| `CsiLaws.EchBlanks` | crates/posh-term/src/csi.rs:386-397 | ECH blanks as many cells from the cursor on as asked, to the edge at most. |
| `CsiLaws.IchShifts` | crates/posh-term/src/csi.rs:358-369 | ICH puts blanks at the cursor; each cell right of it shows what stood n to its left, up to halves of wide characters cut at the edges; all else stays. |
| `CsiLaws.DchShifts` | crates/posh-term/src/csi.rs:371-384 | DCH, the other way round. |
| `CsiLaws.IlMoves` | crates/posh-term/src/csi.rs:332-343 | IL inside the region puts n blank rows at the cursor and pushes the rest of the region down, rows being moved whole; outside it does nothing. |
| `CsiLaws.DlMoves` | crates/posh-term/src/csi.rs:345-356 | DL, the other way round. |
| `CsiLaws.SuMoves` | crates/posh-term/src/terminal.rs:525-532 | SU moves the rows of the region up; what leaves goes to the scrollback if and only if the region is the whole primary screen. |
| `CsiLaws.SdMoves` | crates/posh-term/src/terminal.rs:533-539 | SD moves the rows of the region down and saves nothing. |
| `CsiLaws.UpAndDown` | crates/posh-term/src/csi.rs:201-219 | CUU, CUD, CNL and CPL stop at the margin if the cursor starts on its near side, and else at the edge. |
| `CsiLaws.LeftAndRight` | crates/posh-term/src/csi.rs:221-232 | CUF, CUB, CHA, HPA and HPR move within the row and forget a pending wrap. |
| `CsiLaws.CupMoves` | crates/posh-term/src/csi.rs:36-38 | CUP and HVP go to the place named, counted from 1, or within the margins in origin mode. |
| `CsiLaws.VpaMoves` | crates/posh-term/src/csi.rs:76-88 | VPA likewise, the column kept. |
| `CsiLaws.VprMoves` | crates/posh-term/src/csi.rs:89-95 | VPR goes down by n, to the last row at most. |
| `CsiLaws.TabsMove` | crates/posh-term/src/terminal.rs:540-567 | CHT and CBT go to the nth tab stop after or before the cursor, or the edge. |
| `CsiLaws.TbcClears` | crates/posh-term/src/csi.rs:96-108 | TBC clears the stop at the cursor or all stops, and no other. |
| `CsiLaws.StbmSets` | crates/posh-term/src/csi.rs:161-173 | DECSTBM sets margins that hold at least two rows and homes the cursor; any others change nothing. |
| `CsiLaws.SmSets` | crates/posh-term/src/csi.rs:410-419 | SM and RM change insert mode and new-line mode, and nothing else. |
| `CsiLaws.RepPrints` | crates/posh-term/src/csi.rs:399-408 | REP is the last printed character sent again n times, within its cap. |
| `CsiLaws.PenChanges` | crates/posh-term/src/csi.rs:628-713 | SGR changes nothing but the pen, and never its protection; DECSCA nothing but that. |
| `TerminalLaws.PrintsGlyph` | crates/posh-term/src/terminal.rs:274-355 | A character of width 1 or 2, position by position: the pending wrap, the row made room in, the character and its second half, the cursor after it or a wrap pending at the edge; one too wide for the screen is dropped. |
| `TerminalLaws.Joins` | crates/posh-term/src/terminal.rs:413-433 | A character of no width is appended to the cell before the cursor, or at the cursor when a wrap is pending, from a second half to its head, and changes nothing else. |
| `TerminalLaws.CharsetMaps` | crates/posh-term/src/terminal.rs:435-454 | The charset in use draws lines, has the pound sign, or changes nothing. |
| `TerminalLaws.ControlsDo` | crates/posh-term/src/terminal.rs:456-492 | BS, HT, CR, SO, SI and HTS, and that any other control but the line feeds changes nothing. |
| `TerminalLaws.FeedsDo` | crates/posh-term/src/terminal.rs:494-523 | LF, VT, FF, IND, NEL and RI: one row within the region, scrolling at its edge. |
| `TerminalLaws.EscapesDo` | crates/posh-term/src/terminal.rs:569-600 | DECSC, DECRC, IND, NEL, RI and HTS as two-byte escapes. |
| `TerminalLaws.SavesAlike` | crates/posh-term/src/terminal.rs:602-629 | SCOSC, SCORC and mode 1048 save and restore as DECSC and DECRC do. |
| `TerminalLaws.SaveRestore` | crates/posh-term/src/terminal.rs:602-629 | With what is saved and the size untouched in between, restoring gives the cursor that was saved back, pen, charsets and pending wrap included, if and only if origin mode was off or its row lies within the margins now; origin mode comes back always. |
| `TerminalLaws.Designates` | crates/posh-term/src/terminal.rs:569-600 | Designating G0 or G1 changes that charset only. |
| `TerminalLaws.AlignFills` | crates/posh-term/src/terminal.rs:631-651 | DECALN fills every cell with E, opens the margins and homes the cursor; wrap flags, marks and the scrollback stay. |
| `TerminalLaws.RisResets` | crates/posh-term/src/terminal.rs:653-684 | RIS gives a new terminal of the same size, but for the scrollback and the strings counted. |
| `TerminalLaws.DecstrResets` | crates/posh-term/src/terminal.rs:686-715 | DECSTR resets modes, margins, pen, charsets and what is saved; screens and cursor stay. |
| `TerminalLaws.ModesInTurn` | crates/posh-term/src/csi.rs:421-427 | A list of modes is set one after the other. |
| `TerminalLaws.ModesSet` | crates/posh-term/src/csi.rs:428-508 | DECOM homes to the margin it goes by; DECAWM off forgets a pending wrap; modes 40 and 95 change themselves only. |
| `TerminalLaws.ColumnsSet` | crates/posh-term/src/terminal.rs:717-735 | DECCOLM, where allowed, resizes to 132 or 80 columns and empties the screen. |
| `TerminalLaws.AltEnters` | crates/posh-term/src/terminal.rs:737-764 | Entering the alternate screen by 47, 1047 or 1049; with 1049 the cursor is saved and the screen cleared. |
| `TerminalLaws.AltLeaves` | crates/posh-term/src/terminal.rs:737-764 | Leaving it by each of them. |
| `TerminalLaws.OtherUntouched` | crates/posh-term/src/terminal.rs:737-764 | No action but a switch, a reset or DECCOLM touches the screen not in use. |
| `TerminalLaws.AppLeavesNoTrace` | crates/posh-term/src/terminal.rs:737-764 | Whatever a program does on the alternate screen between entering and leaving by 1049, but switch, reset or resize: the primary screen and its scrollback are as before, and so is the cursor, a pending wrap forgotten, if and only if origin mode was off or its row lies within the margins the program leaves. |
| `TerminalLaws.ResizeDoes` | crates/posh-term/src/terminal.rs:798-829 | A resize rewraps the primary screen, cuts or pads the alternate one, opens the margins, keeps tab stops inside the old width and sets them at every eighth column beyond. |
| `Terminals.Terminal.SwitchScreen` | crates/posh-term/src/terminal.rs:737-764 | Switching screens, with cursor save and restore per mode, in place. |
| `Terminals.Terminal.Resize` | crates/posh-term/src/terminal.rs:798-829 | Both screens, cursor, saved cursors, region and tabs after a resize, in place. |
| `Terminals.Terminal.Process` | crates/posh-term/src/terminal.rs:194-205 | Bytes through parser and dispatch, in place: new parser and machine are those of parsing all bytes and dispatching all actions. |
| `Machines.Resized` | crates/posh-term/src/terminal.rs:798-829 | Any resize keeps the machine invariant and its limits. |
| `Machines.SetAltScreen` | crates/posh-term/src/terminal.rs:737-764 | Any switch keeps the machine invariant and its limits. |
| `Machines.CsiStep` | crates/posh-term/src/csi.rs:9-197 | Any control sequence, with any parameters, keeps the machine invariant and its limits. |
| `TerminalProofs.RunKeeps` | crates/posh-term/src/terminal.rs:194-230 | The machine and parser invariants hold over every run of byte portions and resizes. |
| `TerminalProofs.AlwaysHealthy` | crates/posh-term/src/terminal.rs:144-230 | From a new terminal of any size, after any bytes interleaved with any resizes: equal screens, full rows, bounded scrollback, cursor inside, ordered margins, one tab stop per column. |
| `TerminalProofs.FeedSplits` | crates/posh-term/src/terminal.rs:194-205 | Where the stream is cut into calls of `process` makes no difference. |
| `Dump.Emitter.EmitRow` | crates/posh-term/src/dump.rs:454-495 | The loop over cells, pushing text and tracking the pen, appends exactly the text of the row and ends with its pen. |
| `Dump.Emitter.DrawGrid` | crates/posh-term/src/dump.rs:441-449 | The loop over rows appends the text of the grid in flow order. |
| `Dump.Emitter.DumpCursor` | crates/posh-term/src/dump.rs:627-701 | The branches for pending wrap append the cursor text. |
| `Dump.Emitter.DumpFlat` | crates/posh-term/src/dump.rs:154-261 | Home, grid and cursor: the whole flat dump of a terminal in its initial modes. |
| `DumpProofs.DrawsPen` | crates/posh-term/src/dump.rs:13-106 | The text between two pens, DECSCA and SGR, turns the first into the second when fed to a terminal. |
| `DumpProofs.DrawsCells` | crates/posh-term/src/dump.rs:454-495 | The text of part of a row puts exactly these cells, with combining characters and styles, in their places. |
| `DumpProofs.DrawsRows` | crates/posh-term/src/dump.rs:441-449 | The text of any rows leaves what a soft wrap can carry: each row, its flag only if the next row prints something. |
| `DumpProofs.GridSettles` | crates/posh-term/src/dump.rs:441-495 | On every grid of paired cells, home and the printed grid leave exactly the settled grid on a fresh terminal, wrap flags that a following row carries and cells without their DELs, and nothing in its scrollback. |
| `DumpProofs.SettledExact` | crates/posh-term/src/dump.rs:441-495 | The settled grid is the grid if and only if every soft-wrapped row is followed by a row that prints something and no combining list holds a DEL. |
| `DumpProofs.GridRoundTrip` | crates/posh-term/src/dump.rs:441-495 | Printing and parsing back is the identity on characters, widths, combining lists, styles and wrap flags exactly for these grids. |
| `DumpCursor.CursorRoundTrip` | crates/posh-term/src/dump.rs:627-701 | From any grid, cursor and pen of the target, the cursor text gives the source cursor back, pen and pending wrap included, if and only if it is addressable: inside the margins in origin mode, pending only with autowrap and in the last column. Nothing else changes then if the target shows the source grid as sent. |
| `DumpCursor.FlagLost` | crates/posh-term/src/dump.rs:441-495 | Whenever a soft wrap is left hanging, a concrete row loses its flag. |
| `DumpCursor.FlatRoundTrip` | crates/posh-term/src/dump.rs:154-261 | The whole flat dump, parsed and performed on a fresh terminal, restores grid and cursor if and only if no soft wrap is left hanging, no cell holds a DEL, and a pending wrap stands in the last column. |
| `TerminalProofs.DispatchDraws` | crates/posh-term/src/terminal.rs:207-230 | The actions of a dump do on the whole machine what they do on its active screen. |
| `TerminalProofs.DumpRestores` | crates/posh-term/src/dump.rs:154-261 | Feeding the dump to a new terminal through `process` restores grid and cursor if and only if no soft wrap is left hanging, no cell holds a DEL, and a pending wrap stands in the last column. |
| `Witnesses.WrapLost` | crates/posh-term/src/dump.rs:441-495 | Two rows of two columns fed "ab ": the dump of the terminal does not restore it. |
| `Witnesses.DelLost` | crates/posh-term/src/osc.rs:187-211 | A DEL that an OSC 66 text joins to a letter, reached by feeding the sequence: the dump does not restore the terminal. |
| `Witnesses.PendingStrays` | crates/posh-term/src/terminal.rs:602-629 | From any terminal with a wrap pending in the last column: save, one column more, restore, and the wrap is pending before the last column. |
| `Witnesses.PendingLost` | crates/posh-term/src/dump.rs:627-701 | One row of two columns fed "ab" and taken through that: a reachable cursor no dump restores. |
| `Witnesses.EraseTears` | crates/posh-term/src/csi.rs:278-330 | A wide character and an erase from its second half on, from a new terminal: half of it stays. |
| `Witnesses.PrintTearsOnce` | crates/posh-term/src/terminal.rs:300-309 | A wide character printed again over its second half at the edge: half of it stays. |
| `Witnesses.RowTaken` | crates/posh-term/src/screen.rs:210-231 | Text in the second of two rows, the cursor in the first, a resize to one row: the cursor is on the text. |
| `Witnesses.LineLost` | crates/posh-term/src/screen.rs:250-425 | A wrapped row overwritten with blanks below the cursor, reached by feeding bytes: a change of width drops its logical line. |
| `Witnesses.WayMatters` | crates/posh-term/src/screen.rs:250-425 | A letter and a wide character on three columns, reached by feeding bytes: through two columns and back a blank stays between them. |
| `Huffmans.New` | crates/posh-term/src/inflate.rs:61-91 | Building a table from counts and offsets succeeds if and only if no length exceeds 15 and the code is not over-subscribed; the table is then that of the lengths. |
| `Huffmans.LeftDecides` | crates/posh-term/src/inflate.rs:70-79 | The space the loop keeps runs out at some length if and only if the lengths use more than the whole code space. |
| `Huffmans.OneTable` | crates/posh-term/src/inflate.rs:80-91 | A table whose counts and symbol slots follow the lengths is unique. |
| `InflateProofs.DecodesCode` | crates/posh-term/src/inflate.rs:127-142 | In every accepted table the canonical code of a symbol decodes to that symbol, consuming exactly its length in bits, indices in range. |
| `InflateProofs.ReadsNumber` | crates/posh-term/src/inflate.rs:113-124 | Numbers are read from their bits, least significant first. |
| `InflateProofs.CopyRepeats` | crates/posh-term/src/inflate.rs:224-227 | A copy of any length repeats the last `d` bytes of the output, overlapping or not. |
| `InflateProofs.ReadsMatch` | crates/posh-term/src/inflate.rs:207-220 | The bits of a match, codes and extra bits, read back as its length and distance. |
| `InflateProofs.BlockExpands` | crates/posh-term/src/inflate.rs:191-232 | On the canonical encoding of any valid token list the block decoder gives the LZ77 expansion and stops right after end-of-block. |
| `InflateStreams.ReadsHeader` | crates/posh-term/src/inflate.rs:146-188 | A dynamic header, written with any run-length coding, reads back as exactly its two tables. |
| `InflateStreams.ReadsStored` | crates/posh-term/src/inflate.rs:243-258 | A stored block reads back as its bytes. |
| `InflateStreams.StreamInflates` | crates/posh-term/src/inflate.rs:236-274 | Any stream of stored, fixed and dynamic blocks inflates to what its blocks stand for, and the bytes consumed are reported exactly. |
| `Inflate.BitReader.InflateCompressed` | crates/posh-term/src/inflate.rs:191-232 | The loop pushing literals and copies in place is the block function. |
| `Inflate.BitReader.ReadTables` | crates/posh-term/src/inflate.rs:146-188 | The loops filling the length arrays are the header function. |
| `Inflate.Inflate` | crates/posh-term/src/inflate.rs:236-274 | On every input it terminates, is the stream function, and never gives more than the limit or consumes more than the input. |
| `InflateExact.DecodeBack` | crates/posh-term/src/inflate.rs:127-142 | Whatever decodes to a symbol is its canonical code: bits that are no code of the table are refused. |
| `InflateExact.BlockBack` | crates/posh-term/src/inflate.rs:191-234 | A compressed block that is accepted is the canonical encoding of some valid tokens. |
| `InflateExact.HeaderBack` | crates/posh-term/src/inflate.rs:146-188 | Tables that are accepted were written by some valid dynamic header. |
| `InflateExact.InflatesExactly` | crates/posh-term/src/inflate.rs:236-274 | Inflating succeeds with given output and length if and only if some blocks that stand for this output were written there in this length. |
| `InflateLaws.LengthTable` | crates/posh-term/src/inflate.rs:30-37 | The length codes in closed form: adjoining ranges from 3 on that double every four codes, and 258 alone. |
| `InflateLaws.DistTable` | crates/posh-term/src/inflate.rs:39-46 | The distance codes in closed form: adjoining ranges from 1 to 32768 that double every two codes. |
| `InflateLaws.EveryMatch` | crates/posh-term/src/inflate.rs:30-46 | Every length from 3 to 258 and every distance from 1 to 32768 has a code. |
| `InflateLaws.OrderIs` | crates/posh-term/src/inflate.rs:49-51 | The order of code-length code lengths: repeats, zero, then from 8 outwards. |
| `InflateLaws.FixedCodes` | crates/posh-term/src/inflate.rs:236-274 | The fixed literal and length codes are those of the table in section 3.2.6 of RFC 1951. |
| `InflateLaws.FixedDistances` | crates/posh-term/src/inflate.rs:236-274 | The fixed distance codes are their own five bits. |
| `InflateLaws.Decided` | crates/posh-term/src/inflate.rs:236-274 | Any answer other than that the input ends early stands whatever bytes follow. |
| `InflateLaws.EndsEarly` | crates/posh-term/src/inflate.rs:236-274 | A stream cut anywhere before its last byte is reported as ending early; cut anywhere after it, it inflates the same. |
| `InflateLaws.BlockRefuses` | crates/posh-term/src/inflate.rs:191-234 | After any valid tokens: code 286 or 287, a match that reaches before the start, and a token past the limit are refused, each with its own error. |
| `InflateLaws.DistanceRefused` | crates/posh-term/src/inflate.rs:205-225 | A match with a distance code of 30 or more is refused as a bad symbol. |
| `InflateLaws.StreamRefuses` | crates/posh-term/src/inflate.rs:236-274 | After any blocks: type 3, a stored length that does not match its complement, stored bytes past the limit, and a fixed block that is refused, each with its own error. |
| `Adler.Checksum` | crates/posh-term/src/inflate.rs:276-290 | Reducing only every 5552 bytes, in 32-bit sums that never overflow, is the per-byte definition of section 8.2 of RFC 1950. |
| `Adler.ChunkIsLargest` | crates/posh-term/src/inflate.rs:276-290 | 5552 is the longest chunk for which the second sum cannot leave 32 bits, and exactly so. |
| `Adler.MostReached` | crates/posh-term/src/inflate.rs:276-290 | The bound is reached, by the largest sums and bytes of 255. |
| `Adler.RawReduces` | crates/posh-term/src/inflate.rs:276-290 | Reducing late gives the same residues. |
| `Zlib.Decompress` | crates/posh-term/src/inflate.rs:294-311 | Header, stream and checksum in the order of the source, with its errors. |
| `Zlib.Unpacks` | crates/posh-term/src/inflate.rs:294-311 | A zlib stream of any blocks decompresses to what they stand for, unless its trailer is not their checksum; bytes after it do not matter. |
| `Zlib.UnpacksExactly` | crates/posh-term/src/inflate.rs:294-323 | Decompression succeeds with given bytes if and only if the input begins with a zlib stream of blocks that stand for them: method 8, no dictionary, check bits and checksum right. |
| `Zlib.CutShort` | crates/posh-term/src/inflate.rs:294-323 | A zlib stream cut anywhere before its end is reported as ending early. |
| `Png.Paeth` | crates/posh-term/src/png.rs:89-100 | The predictor is the neighbour nearest to left + up - corner, ties in that order. |
| `Png.RowBack` | crates/posh-term/src/png.rs:104-135 | Unfiltering one filtered row gives the row back. |
| `Png.ImageBack` | crates/posh-term/src/png.rs:104-135 | For any pixels, any bytes per pixel and any filter per row, unfiltering the filtered scanlines gives the pixels. |
| `PngLaws.PixelsShow` | crates/posh-term/src/png.rs:104-135 | Every byte of every unfiltered row is its raw byte plus, modulo 256, what section 6 of RFC 2083 adds for its filter from the pixels to the left, above and above left. |
| `PngLaws.FiltersFail` | crates/posh-term/src/png.rs:104-135 | Unfiltering fails if and only if some scanline has an unknown filter. |
| `Png.Unfilter` | crates/posh-term/src/png.rs:104-135 | The pass in one buffer, each row shifted over its filter byte, is the unfiltering of what stood there at the start: unread input is never overwritten. |
| `PngDecode.LimitMeans` | crates/posh-term/src/png.rs:64-86 | The size limit of an accepted header holds if and only if width times height times 4 stays below 2^64. |
| `PngDecode.LimitWraps` | crates/posh-term/src/png.rs:71-73 | A header of 2^31 by 2^31 pixels passes the limit, because the product wraps to 0. |
| `PngDecode.ScanReads` | crates/posh-term/src/png.rs:190-218 | Scanning the chunks of a written file absorbs them in order up to the end chunk. |
| `PngDecode.DecodesBack` | crates/posh-term/src/png.rs:185-233 | The file of any image decodes to its pixels in RGBA, whatever filters, DEFLATE blocks, data pieces and extra chunks it uses. |
| `PngLaws.ColorsShow` | crates/posh-term/src/png.rs:139-183 | The four bytes of every pixel, for each color type, transparent colors and palette alphas included. |
| `PngLaws.ColorsFail` | crates/posh-term/src/png.rs:139-183 | Coloring fails if and only if a palette is missing, ragged, or lacks the color of some pixel. |
| `PngLaws.HeaderRead` | crates/posh-term/src/png.rs:64-86 | The verdict on every header, field by field. |
| `PngLaws.HeaderLength` | crates/posh-term/src/png.rs:64-67 | A header that is not 13 bytes long is refused. |
| `PngLaws.ScansExactly` | crates/posh-term/src/png.rs:190-218 | The chunk loop succeeds if and only if the file is well-formed chunks up to an end chunk that can be absorbed in order. |
| `PngLaws.ScanRefuses` | crates/posh-term/src/png.rs:190-218 | After any absorbed chunks: a chunk cut off anywhere, a wrong checksum, a bad header, and a chunk before the header, each with its own error. |
| `PngLaws.EndsEarly` | crates/posh-term/src/png.rs:185-233 | A file cut anywhere before the end of its end chunk is refused: for its signature within the first 8 bytes, else as ending early. |
| `PngLaws.NeedsSignature` | crates/posh-term/src/png.rs:185-188 | The signature error is given if and only if the eight bytes are not there. |
| `PngLaws.DataFails` | crates/posh-term/src/png.rs:219-233 | Data that is no zlib stream of exactly all scanlines, or has an unknown filter, is refused as bad data, and nothing else can be wrong after the chunks but the palette. |
| `PngLaws.DataShows` | crates/posh-term/src/png.rs:219-233 | Otherwise the image is its unfiltered scanlines, colored. |
| `PngDecode.FourBytes` | crates/posh-term/src/png.rs:26-31 | Whatever decodes has exactly four bytes a pixel, and a size product that has not wrapped. |
| `PngDecode.PanicsWrapped` | crates/posh-term/src/png.rs:185-233 | Decoding runs past its buffer, or its pixels past an address space, only if the size product of the header wraps. |
| `PngDecode.PicturesSized` | crates/posh-term/src/graphics.rs:287-296 | So decoded PNGs meet what the graphics store assumes of them. |
| `PngDecode.DecodeFile` | crates/posh-term/src/png.rs:185-233 | On every file, chunk loop, decompression to the size in 64-bit arithmetic, unfiltering in place and coloring give the specified pixels, the first error, or the panic on a scanline past the buffer. |
| `PngDecode.ExpandColors` | crates/posh-term/src/png.rs:139-183 | The loop pushing pixels is the per-pixel coloring. |
| `Ocb.OpenSealAll` | zz-mosh/src/crypto/ocb_internal.cc:918-1040 | Opening sealed blocks gives the blocks back and the same offset and checksum. |
| `Ocb.RoundTrip` | zz-mosh/src/crypto/ocb_internal.cc:888-1297 | Decryption inverts encryption for every nonce, associated data and length, and arrives at the tag that was sent. |
| `OcbProofs.TableSuffices` | zz-mosh/src/crypto/ocb_internal.cc:70-78 | Below 2^16 blocks every index into the table of L values is under 16. |
| `OcbProofs.BatchOffsets` | zz-mosh/src/crypto/ocb_internal.cc:920-940 | The offsets of a batch of four, the third taken from the first, are the four one-by-one offsets. |
| `OcbProofs.SealAppend` | zz-mosh/src/crypto/ocb_internal.cc:918-1040 | Sealing in portions is sealing at once. |
| `OcbLaws.EncryptsAs` | zz-mosh/src/crypto/ocb_internal.cc:888-1076 | Ciphertext and tag in closed form, block by block: block i is sealed under the first offset plus the L values of the bits of the Gray code of i; the rest is masked, padded and summed, and the tag formed, as section 4.2 of RFC 7253 says. |
| `OcbLaws.HashIs` | zz-mosh/src/crypto/ocb_internal.cc:763-884 | The hash of associated data in closed form, likewise. |
| `OcbLaws.GrayInjective` | zz-mosh/src/crypto/ocb_internal.cc:918-1040 | No two blocks of a message are sealed under the same sum of L values, formally. |
| `OcbLaws.DoubleBits` | zz-mosh/src/crypto/ocb_internal.cc:349-354 | Doubling bit by bit. |
| `OcbLaws.DoubleInjective` | zz-mosh/src/crypto/ocb_internal.cc:349-354 | No two blocks double to the same. |
| `OcbLaws.DoubleLinear` | zz-mosh/src/crypto/ocb_internal.cc:349-354 | Doubling distributes over exclusive or. |
| `OcbLaws.PaddedInjective` | zz-mosh/src/crypto/ocb_internal.cc:763-884 | No two partial blocks are padded to the same block. |
| `OcbLaws.TopBits` | zz-mosh/src/crypto/ocb_internal.cc:737-761 | The formatted nonce with its last six bits cleared, bit by bit. |
| `OcbLaws.BottomIs` | zz-mosh/src/crypto/ocb_internal.cc:737-761 | The shift is the number of the last six bits of the nonce. |
| `OcbLaws.OffsetBits` | zz-mosh/src/crypto/ocb_internal.cc:737-761 | The first offset bit by bit from the encrypted nonce block. |
| `OcbContext.DoubleIs` | zz-mosh/src/crypto/ocb_internal.cc:349-354 | Doubling on two 64-bit words is double(S) of section 2 of RFC 7253. |
| `OcbContext.WindowIs` | zz-mosh/src/crypto/ocb_internal.cc:325-335 | The shifts of `gen_offset` cut the 128 bits of the stretch that the nonce selects. |
| `OcbContext.ThirdWord` | zz-mosh/src/crypto/ocb_internal.cc:748-757 | The third word of the stretch as computed is the one of RFC 7253. |
| `OcbContext.Context.OffsetFromNonce` | zz-mosh/src/crypto/ocb_internal.cc:737-761 | With the cached block reused across any sequence of nonces, the offset is that of the nonce. |
| `OcbContext.Context.ProcessAd` | zz-mosh/src/crypto/ocb_internal.cc:763-884 | Batches of four and a summed tail give HASH of section 4.1 of RFC 7253, in one call or several. |
| `OcbContext.Context.Encrypt` | zz-mosh/src/crypto/ocb_internal.cc:888-1076 | In place or not, batched, with a partial last block and bundled or separate tag: ciphertext and tag are OCB-ENCRYPT; incremental calls continue a message. |
| `OcbContext.Context.Decrypt` | zz-mosh/src/crypto/ocb_internal.cc:1102-1297 | Plaintext is OCB-DECRYPT in place or not, and a final call succeeds if and only if the tag is the computed one. |
| `OcbContext.PartsAreWhole` | zz-mosh/src/crypto/ocb_internal.cc:888-1297 | Sealing or opening whole batches call by call is doing so at once. |
| `OcbContext.Incremental` | zz-mosh/src/crypto/ocb_internal.cc:888-1076 | A message sent in any number of calls has the ciphertext and tag of the message sent in one. |
| `OcbContext.IncrementalBack` | zz-mosh/src/crypto/ocb_internal.cc:1102-1297 | A message opened in any number of calls has the plaintext, and the tag to compare, of the message opened in one. |
| `Transports.Transport.Recv` | zz-mosh/src/network/networktransport-impl.h:68-175 | After reassembly: duplicate check, reference lookup, throwaway, quench, insertion in order, in place on the list. |
| `Transports.Transport.ProcessThrowawayUntil` | zz-mosh/src/network/networktransport-impl.h:177-192 | Erasing while walking the list leaves exactly the entries not older than the number; the list does not run empty. |
| `Transports.Transport.GetRemoteDiff` | zz-mosh/src/network/networktransport-impl.h:194-214 | The back-to-front loop that subtracts the oldest state from every state, itself last. |
| `TransportProofs.InsertSorts` | zz-mosh/src/network/networktransport-impl.h:134-168 | Inserting a new number before the first newer entry keeps the list strictly sorted. |
| `TransportProofs.ArriveKeeps` | zz-mosh/src/network/networktransport-impl.h:68-192 | Whatever honest instruction arrives, whenever and however often: the list stays nonempty and strictly sorted, every entry is the sender's state of its number, and the acknowledged number never decreases. |
| `TransportProofs.Ignored` | zz-mosh/src/network/networktransport-impl.h:85-109 | An instruction whose number is held already, or whose reference is not, changes nothing. |
| `TransportProofs.Arrives` | zz-mosh/src/network/networktransport-impl.h:116-175 | Any other: entries older than the throwaway number go; unless the rest is over the limit and quenched, one entry with the new number stands in order among them, its state the reference followed by the difference, and the acknowledged number is the new one if it is the largest. |
| `TransportProofs.Stays` | zz-mosh/src/network/networktransport-impl.h:68-192 | A state that is held stays held through any instruction that does not throw it away. |
| `TransportProofs.QueryKeeps` | zz-mosh/src/network/networktransport-impl.h:194-214 | The assertions of `get_remote_diff` hold, its answer is exactly what is new, and the list stays faithful after the rebasing. |
| `TransportProofs.PlayKeeps` | zz-mosh/src/network/networktransport-impl.h:68-214 | The same over every run of arrivals and queries. |
| `TransportProofs.ExactlyOnce` | zz-mosh/src/network/networktransport-impl.h:68-214 | Over every run under loss, duplication and reordering, the concatenated answers are the sender's log at the newest received number, each event once and in order. |
| `TransportProofs.RunStays` | zz-mosh/src/network/networktransport-impl.h:68-214 | A state that is held stays held through any run of honest steps that does not throw it away. |
| `TransportProofs.TakenIsHeld` | zz-mosh/src/network/networktransport-impl.h:68-214 | After any run, an instruction that is taken leaves its state in the list at least until it is read. |
| `TransportProofs.TakenIsRead` | zz-mosh/src/network/networktransport-impl.h:68-214 | After any run, the query that follows an instruction that is taken brings the answers up to that state at least. |
| `TransportProofs.ForwardForgets` | zz-mosh/src/network/networktransport-impl.h:201-207 | Subtracting front to back agrees with back to front if and only if the oldest state is empty or the only one: the reverse order matters. |
| `Predictions.UserByte` | zz-mosh/src/frontend/terminaloverlay.cc:621-828 | From any state whose rows and cursors fit the last frame seen, every cursor position and row index used is in bounds, so no assert or index of `new_user_byte` can fail; the result fits again. |
| `PredictionEngines.PredictionEngine.CullGuesses` | zz-mosh/src/frontend/terminaloverlay.cc:419-595 | The nested loops with epochs killed underneath them, triggers and early returns, in place, are the cull function. |
| `PredictionEngines.PredictionEngine.JudgeCell` | zz-mosh/src/frontend/terminaloverlay.cc:453-565 | The verdict switch in place, with what it sets off. |
| `PredictionEngines.PredictionEngine.KillFrom` | zz-mosh/src/frontend/terminaloverlay.cc:367-391 | Erasing cursors while walking the list and clearing cells in place. |
| `PredictionEngines.PredictionEngine.NewUserByte` | zz-mosh/src/frontend/terminaloverlay.cc:621-828 | Insertion, backspace, arrows and control characters in place are the byte function. |
| `PredictionLaws.TypesOne` | zz-mosh/src/frontend/terminaloverlay.cc:717-796 | A printable character of width 1 before the last column: the old cursor place expects exactly its encoding, in the current epoch, due one frame after the last sent; every cell to its right up to the one before last expects what its left neighbour showed, the last column nothing known; the cells to the left are untouched, and the cursor is one column on. |
| `PredictionLaws.TypesAtEdge` | zz-mosh/src/frontend/terminaloverlay.cc:717-796 | In the last column it begins an epoch and a line end; on the last row the row is then expected blank. |
| `PredictionLaws.TypesBackspace` | zz-mosh/src/frontend/terminaloverlay.cc:662-711 | Backspace: the cursor one column back, and every cell from there on expects what its right neighbour showed; at column 0 nothing. |
| `PredictionLaws.TypesArrow` | zz-mosh/src/frontend/terminaloverlay.cc:808-821 | The arrows move the cursor one column within the row and predict nothing else. |
| `PredictionLaws.TypesReturn` | zz-mosh/src/frontend/terminaloverlay.cc:797-863 | CR begins an epoch and predicts a line end. |
| `PredictionLaws.OthersBegin` | zz-mosh/src/frontend/terminaloverlay.cc:712-828 | Whatever else the keystroke parser reports begins an epoch, and predicts nothing. |
| `PredictionLaws.ByteReacts` | zz-mosh/src/frontend/terminaloverlay.cc:621-643 | A byte is read after the cull, ESC O as ESC [. |
| `PredictionVerdicts.OpenWaits` | zz-mosh/src/frontend/terminaloverlay.cc:547-560 | An idle guess stays; one that is not due only makes a slow server known. |
| `PredictionVerdicts.WrongKills` | zz-mosh/src/frontend/terminaloverlay.cc:467-509 | A due guess the frame contradicts kills its unconfirmed epoch, or else everything; in Experimental mode it is only cleared. |
| `PredictionVerdicts.RightConfirms` | zz-mosh/src/frontend/terminaloverlay.cc:510-542 | A due guess the frame bears out confirms its epoch, repairs a glitch if quick, and gives the rest of the row its renditions. |
| `PredictionVerdicts.OthersClear` | zz-mosh/src/frontend/terminaloverlay.cc:543-546 | Any other due guess is only cleared. |
| `PredictionVerdicts.KillDoes` | zz-mosh/src/frontend/terminaloverlay.cc:367-400 | Killing an epoch clears its cells and those of later ones, keeps all others, and begins a new epoch at the cursor of the frame. |
| `PredictionVerdicts.CursorsJudged` | zz-mosh/src/frontend/terminaloverlay.cc:567-595 | A last cursor that is due and elsewhere resets everything; else the due ones go. |
| `PredictionVerdicts.GuessPaints` | zz-mosh/src/frontend/terminaloverlay.cc:42-70 | How each guess shows: replacing the cell, underlined when flagging, or only underlining when unknown. |
| `PredictionVerdicts.TriggersSet` | zz-mosh/src/frontend/terminaloverlay.cc:432-453 | The two hystereses: shown from 30 ms until 20 ms with nothing active, flagged from 80 ms until 50 ms, or by glitches. |
| `PredictionVerdicts.ResizeForgets` | zz-mosh/src/frontend/terminaloverlay.cc:425-431 | A change of size forgets everything predicted and begins an epoch. |
| `PredictionEngines.PredictionEngine.NewlineCarriageReturn` | zz-mosh/src/frontend/terminaloverlay.cc:830-863 | A predicted line end in place, with the blanked last row. |
| `PredictionEngines.PredictionEngine.Display` | zz-mosh/src/frontend/terminaloverlay.cc:350-365 | The loops over cursors, rows and cells give the displayed frame. |
| `PredictionProofs.JudgeDoes` | zz-mosh/src/frontend/terminaloverlay.cc:453-565 | A verdict resets everything, or clears and recolors cells only, leaves the cell judged quiet, and raises the confirmed epoch only to that of a prediction the server's frame proves. |
| `PredictionProofs.KillKeeps` | zz-mosh/src/frontend/terminaloverlay.cc:367-391 | A kill keeps the invariant and leaves only predictions older than the killed epoch, besides one new cursor that is not shown. |
| `PredictionProofs.CullDoes` | zz-mosh/src/frontend/terminaloverlay.cc:419-595 | After a cull every surviving prediction is in bounds and still pending; confirmation needs a proven prediction. |
| `PredictionRuns.RunKeepsEpochs` | zz-mosh/src/frontend/terminaloverlay.cc:367-875 | Over every run with a preference other than Experimental the confirmed epoch never decreases and never passes the predicting one, and live predictions lie in epochs already begun. |
| `PredictionRuns.FreshRun` | zz-mosh/src/frontend/terminaloverlay.cc:367-875 | In particular from a new engine, through any steps. |
| `PredictionRuns.RunConfirms` | zz-mosh/src/frontend/terminaloverlay.cc:453-565 | Over every run the confirmed epoch rises only to that of a prediction, alive at some step, that the server frame of that step proves. |
| `PredictionRuns.ResetHides` | zz-mosh/src/frontend/terminaloverlay.cc:393-400 | After a reset nothing is shown, however the run goes on, until a prediction made since, of an epoch the reset began, has been proven by a server frame. |
| `PredictionRuns.KillHides` | zz-mosh/src/frontend/terminaloverlay.cc:367-391 | After an epoch is killed, all that is shown is older than it, until a prediction of an epoch begun by the kill has been proven by a server frame. |
| `PredictionRuns.ApplyAt` | zz-mosh/src/frontend/terminaloverlay.cc:43-70 | The displayed frame place by place: the cell painted by the one prediction covering it, the cursor of the last prediction shown, nothing else changed. |
| `PredictionRuns.OnlyPredictionsDiffer` | zz-mosh/src/frontend/terminaloverlay.cc:329-365 | Cull then apply changes a cell or the cursor only where a prediction newer than the echo ack and in a confirmed epoch says so. |
| `PredictionRuns.EchoCaughtUp` | zz-mosh/src/frontend/terminaloverlay.cc:329-365 | Once the echo ack exceeds the last frame sent, the displayed frame is the server's frame. |
| `Pixels.BlendMeans` | crates/posh-term/src/graphics.rs:812-830 | Opaque source replaces, clear source changes nothing unless both are clear, every blended channel lies between the two, and nothing leaves a byte. |
| `Pixels.BlendInto` | crates/posh-term/src/graphics.rs:812-830 | The in-place blend is the blend function. |
| `Pixels.ComposedPixel` | crates/posh-term/src/graphics.rs:836-862 | Composition mixes each pixel of the clipped rectangle once with the source pixel over it and leaves all others alone. |
| `Pixels.BlendOver` | crates/posh-term/src/graphics.rs:812-830 | A blended channel is the weighted mean of the two by their alphas, rounded down, and the alpha that of one over the other. |
| `Pixels.ComposeInPlace` | crates/posh-term/src/graphics.rs:836-862 | The nested loops on the canvas are the composition function, every access in bounds. |
| `GraphicsProofs.SumRemove` | crates/posh-term/src/graphics.rs:517-525 | The sum of stored sizes does not depend on the order of the map. |
| `GraphicsProofs.DropKeeps` | crates/posh-term/src/graphics.rs:517-525 | Dropping an image takes exactly its bytes and those of its frames off the total, and its frames and animation with it. |
| `GraphicsProofs.EnforceKeeps` | crates/posh-term/src/graphics.rs:506-514 | After eviction the total is within quota; what is kept is unchanged and newer than everything evicted. |
| `GraphicsProofs.LastWasNeeded` | crates/posh-term/src/graphics.rs:506-514 | The newest image evicted would not have fitted: no more is evicted than must be. |
| `GraphicsProofs.CheckMeansSize` | crates/posh-term/src/graphics.rs:297-306 | A block of raw pixels that is accepted has the size its format and dimensions imply if and only if that size does not wrap in 64 bits. |
| `GraphicsProofs.CheckWraps` | crates/posh-term/src/graphics.rs:297-306 | An empty payload is accepted for 2^31 by 2^31 RGBA pixels. |
| `GraphicsProofs.FinishKeeps` | crates/posh-term/src/graphics.rs:238-349 | A finished transmission, stored, queried, placed or refused, keeps the accounting, whatever dimensions it declares. |
| `GraphicsProofs.ComposeKeeps` | crates/posh-term/src/graphics.rs:411-465 | Composing one frame onto another keeps the accounting. |
| `GraphicsProofs.DeleteKeeps` | crates/posh-term/src/graphics.rs:684-762 | Every form of delete keeps the accounting. |
| `GraphicsProofs.DispatchKeeps` | crates/posh-term/src/graphics.rs:193-236 | Every command keeps: total equal to the sum of sizes, within quota, frames and animations only of live images, distinct frame numbers; only a composition needs the blocks on the two chains it reads to be as large as they declare. |
| `GraphicsProofs.DispatchSizes` | crates/posh-term/src/graphics.rs:193-236 | Every command keeps each block exactly as large as its format and dimensions imply, unless it begins a transmission whose dimensions wrap the size check; what continuations and other commands declare does not matter. |
| `GraphicsProofs.AlwaysAccounted` | crates/posh-term/src/graphics.rs:193-236 | The accounting holds after any run of commands from the empty store in which no composition reads a block of the wrong size. |
| `GraphicsProofs.AlwaysSized` | crates/posh-term/src/graphics.rs:193-236 | If no transmission begins with dimensions that wrap the size check, no composition of the run reads such a block, and all blocks have exact sizes after it. |
| `GraphicsProofs.ComposesWhen` | crates/posh-term/src/graphics.rs:471-504 | Whenever the blocks its chain reads have their declared sizes, composing terminates, cyclic bases included; it gives a canvas if and only if the image is not empty and the chain of bases leads to it, and the canvas has exactly four bytes a pixel. |
| `GraphicsProofs.WholeReplaced` | crates/posh-term/src/graphics.rs:836-862 | Replacing the whole canvas leaves exactly the new pixels. |
| `GraphicsProofs.StandsAlone` | crates/posh-term/src/graphics.rs:411-465 | A frame rewritten by a composition needs no base: whatever the other frames hold, composed again it is its stored canvas. |
| `GraphicsStates.GraphicsState.Handle` | crates/posh-term/src/graphics.rs:193-236 | Dispatch with its maps and lists updated in place is the dispatch function. |
| `GraphicsLaws.CommandDeletes` | crates/posh-term/src/graphics.rs:684-762 | Every delete form, on the result of the command: a placement stays, in order and number, if and only if it does not meet the condition of the form, spelled out in its fields and the cells it covers; lower-case forms change nothing else; capital ones free exactly the image named, the images touched that have no placement left, or all. |
| `GraphicsLaws.CommandPlaces` | crates/posh-term/src/graphics.rs:542-557 | Placing names an image and answers for one that is missing, for a parent that is missing, and for a cycle. |
| `GraphicsLaws.PlacesAt` | crates/posh-term/src/graphics.rs:589-645 | Where a placement goes: the cursor, or the offset from its parent; one of the same image and number is replaced. |
| `GraphicsLaws.CycleFound` | crates/posh-term/src/graphics.rs:600-625 | The bounded walk along parents refuses a placement if and only if it would become its own ancestor, however long the cycle. |
| `GraphicsLaws.AdvancesOver` | crates/posh-term/src/graphics.rs:558-580 | The cursor moves over exactly the cells the placement covers. |
| `GraphicsLaws.CommandTransmits` | crates/posh-term/src/graphics.rs:238-349 | A complete transmission, by its action: stored under its id or the next one, replacing what was there, placed, or only queried. |
| `GraphicsLaws.CommandRefuses` | crates/posh-term/src/graphics.rs:238-300 | One that is refused is answered and changes nothing. |
| `GraphicsLaws.QuotaEvicts` | crates/posh-term/src/graphics.rs:506-516 | What is evicted is older than all that is left, with exactly its frames, animation and placements. |
| `GraphicsLaws.NewestSurvives` | crates/posh-term/src/graphics.rs:506-516 | The newest image goes only if it does not fit alone. |
| `GraphicsLaws.SplitsAt` | crates/posh-term/src/graphics.rs:865-870 | Control data and payload are what stands before and after the first semicolon. |
| `GraphicsLaws.ChunksAreWhole` | crates/posh-term/src/graphics.rs:193-221 | A transmission in any number of chunks within the limit is the same transmission in one. |
| `GraphicsLaws.ChunkTaken` | crates/posh-term/src/graphics.rs:203-214 | A chunk that would pass the limit is dropped; no other is. |
| `GraphicsLaws.ArrivesAs` | crates/posh-term/src/graphics.rs:238-300 | What arrives as pixels: payload decoded and unpacked, for each format of the size it declares, in 64-bit arithmetic. |
| `GraphicsLaws.ArrivesNot` | crates/posh-term/src/graphics.rs:238-300 | Bad encodings, media and compressions are refused, each with its own answer. |
| `GraphicsLaws.RepliesWhen` | crates/posh-term/src/graphics.rs:924-940 | Commands that name nothing are not answered; quiet ones not for success; very quiet ones never. |
| `GraphicsLaws.FramesArrive` | crates/posh-term/src/graphics.rs:352-386 | A frame takes the number asked for, or one more than the highest, replacing a frame of that number. |
| `GraphicsLaws.FrameNeedsImage` | crates/posh-term/src/graphics.rs:352-360 | A frame for no image is answered and changes nothing. |
| `GraphicsLaws.Animates` | crates/posh-term/src/graphics.rs:387-409 | Animation control sets what is not 0, of the image named only. |
| `GraphicsLaws.ComposedOver` | crates/posh-term/src/graphics.rs:471-504 | Every pixel of a composed frame: of its own block over, or instead of, that of its composed base; the base alone outside it. |
| `GraphicsLaws.ComposedRoot` | crates/posh-term/src/graphics.rs:471-504 | Frame 0 is the image in RGBA. |
| `GraphicsLaws.ComposeRefuses` | crates/posh-term/src/graphics.rs:411-440 | Composition answers for a missing image or frame, and changes nothing then. |
| `GraphicsLaws.ComposesOnto` | crates/posh-term/src/graphics.rs:411-470 | Otherwise the target frame becomes a full canvas: the rectangle of the source over or instead of what it showed, all else as it was. |
| `GraphicsStates.GraphicsState.Evict` | crates/posh-term/src/graphics.rs:506-514 | The loop over the oldest image, whatever the order of the map, is the eviction function. |
| `GraphicsStates.GraphicsState.Chain` | crates/posh-term/src/graphics.rs:479-504 | The recursion that composes one buffer in place is the chain function. |
| `GraphicsStates.GraphicsState.ComposeFrames` | crates/posh-term/src/graphics.rs:411-465 | Composition of frames in place, totals adjusted. |
| `GraphicsStates.GraphicsState.DeleteMatching` | crates/posh-term/src/graphics.rs:660-682 | The taken-out list is split in one pass and unused images are dropped. |
| `GraphicsStates.GraphicsState.PlaceImage` | crates/posh-term/src/graphics.rs:589-645 | The bounded walk up the parents, and the placement replaced. |
| `Json.ParseText` | crates/posh-rec/src/json.rs:73-83 | The recursive-descent reader with its moving position gives the value or the first error of the grammar functions. |
| `JsonGrammar.ParsesExactly` | crates/posh-rec/src/json.rs:73-302 | A text is read as a value if and only if it is, but for space around it, a text of the grammar that stands for this value: escapes, surrogate pairs, numbers, nested arrays and objects included. |
| `JsonGrammar.StringReads` | crates/posh-rec/src/json.rs:192-260 | Any string text is read as its bytes: plain ones, the eight short escapes, code units and surrogate pairs, and one replacement for a surrogate that forms no pair. |
| `JsonGrammar.ValueReads` | crates/posh-rec/src/json.rs:114-300 | Any text of the grammar, wherever it stands, is read as its value. |
| `JsonGrammar.ValueBack` | crates/posh-rec/src/json.rs:114-300 | Anything that is read is such a text. |
| `Castx.WriteString` | crates/posh-rec/src/castx.rs:214-234 | The escaping loop is the escaped string. |
| `Castx.Recorder.FlushComplete` | crates/posh-rec/src/castx.rs:299-335 | The drain loop writes every complete portion and keeps exactly the incomplete tail. |
| `Castx.Recorder.WriteOutput` | crates/posh-rec/src/castx.rs:268-272 | Output across calls, in place, is the written function; the writer holds exactly the lines of the events. |
| `Castx.Recorder.NonOutput` | crates/posh-rec/src/castx.rs:275-288 | Held output goes first, then the event. |
| `CastxProofs.CompleteStreams` | crates/posh-rec/src/castx.rs:299-335 | Writing complete portions never changes what the bytes decode to, whatever comes next; what is held is an incomplete character. |
| `CastxProofs.SplitsDoNotMatter` | crates/posh-rec/src/castx.rs:266-346 | For every way of splitting output across calls, the text between two other events is the lossy decoding of all the bytes, and the other events are all there in order. |
| `CastxLaws.OutputAtOnce` | crates/posh-rec/src/castx.rs:266-335 | After any calls, output is written at once, with the time of its call, one text for every run of whole characters; at most the three bytes that begin a character are held back. |
| `CastxLaws.NoteAtOnce` | crates/posh-rec/src/castx.rs:275-346 | Other events are written after what was held back, with the time of the call; the end writes it with the time of the last call. |
| `CastxLines.StringBack` | crates/posh-rec/src/json.rs:192-260 | The reader's unescaping inverts the writer's escaping for every string. |
| `CastxLines.NumberBack` | crates/posh-rec/src/json.rs:262-279 | A number before a comma or brace reads back as its text. |
| `CastxLines.LineParses` | crates/posh-rec/src/castx.rs:193-202 | An event line is one JSON array of time, letter and data. |
| `CastxLines.EventBack` | crates/posh-rec/src/castx.rs:165-202 | A written line reads back as the same event if and only if its code is not an unknown one with a known letter. |
| `CastxLines.OneLine` | crates/posh-rec/src/castx.rs:214-234 | No written line contains a raw newline. |
| `CastxRead.Reader.TakeLine` | crates/posh-rec/src/castx.rs:115-128 | Blank lines are skipped and line numbers counted in place. |
| `CastxRead.Reader.ReadAll` | crates/posh-rec/src/castx.rs:114-128 | Events are read until the first bad line, which is reported with its number. |
| `CastxLaws.ReadsInOrder` | crates/posh-rec/src/castx.rs:114-128 | Reading gives the events of all filled lines, in order, or, at the first line that is none, its number and error. |
| `CastxLaws.LinesAre` | crates/posh-rec/src/castx.rs:84-91 | Lines are what stands between newlines. |
| `CastxLaws.EventRead` | crates/posh-rec/src/castx.rs:165-174 | An array of a number, a string and perhaps a text is the event of that time, code and data. |
| `CastxLaws.EventRefused` | crates/posh-rec/src/castx.rs:165-174 | Nothing else is an event, and why. |
| `CastxRead.ObjectReads` | crates/posh-rec/src/json.rs:127-161 | An object of fields whose values read back reads back, in order. |
| `CastxRead.HeaderBack` | crates/posh-rec/src/castx.rs:135-189 | A written header reads back as itself if and only if its version is 2; any other is refused with its number. |
| `CastxLaws.HeaderRead` | crates/posh-rec/src/castx.rs:135-156 | Any object is a header if and only if its version is 2 or missing; its size is the one given, or 80 by 24. |
| `CastxRead.FileBack` | crates/posh-rec/src/castx.rs:78-174 | A whole file reads back as its header and its events, the very same list if and only if no unknown code has a known letter. |
| `Players.Player.constructor` | crates/posh-rec/src/player.rs:92-132 | Flattening the events in one pass gives the byte stream and its offsets. |
| `Players.Player.FeedOne` | crates/posh-rec/src/player.rs:234-244 | One byte, resizes due at its offset first. |
| `Players.Player.StepEscape` | crates/posh-rec/src/player.rs:246-269 | The loop over one sequence or one printable run is its function. |
| `Players.Player.StepFrame` | crates/posh-rec/src/player.rs:285-303 | The coalescing loop is its function; where the source never leaves it, that is reported. |
| `Players.Player.StepToChange` | crates/posh-rec/src/player.rs:198-211 | Up to the next generation, then trailing resizes. |
| `Players.Player.StepToMarker` | crates/posh-rec/src/player.rs:215-228 | The search and the feeding in place are the marker function, success reported if and only if it found a mark. |
| `PlayerProofs.MarkerStays` | crates/posh-rec/src/player.rs:215-228 | Stepping to a marker succeeds if and only if a mark of that name lies at or past the cursor, and stops on the nearest; it succeeds without moving if and only if one lies at the cursor. |
| `PlayerProofs.MarkerStaysOnce` | crates/posh-rec/src/player.rs:215-228 | A recording that begins with a marker: stepping to it succeeds at offset 0 and stays there. |
| `Players.Player.StepBy` | crates/posh-rec/src/player.rs:177-195 | At most n steps, then trailing resizes. |
| `PlayerStops.SequenceStep` | crates/posh-rec/src/player.rs:246-269 | An escape step at an introducer stops at the first offset past it where the terminal fed so far is not inside a sequence, or at the end. |
| `PlayerStops.PlainStep` | crates/posh-rec/src/player.rs:246-269 | From anywhere else it stops at the first introducer past the cursor, or at the end. |
| `PlayerStops.ByteStops` | crates/posh-rec/src/player.rs:234-244 | A byte step stops one byte on. |
| `PlayerStops.WriteStops` | crates/posh-rec/src/player.rs:271-283 | A write step stops at the least event offset past the cursor, or at the end, and flushes resizes there. |
| `PlayerStops.ChangeStops` | crates/posh-rec/src/player.rs:198-211 | A change step stops after the first byte with another generation, or at the end. |
| `PlayerStops.MarkerStops` | crates/posh-rec/src/player.rs:305-316 | A marker step stops at the least marker past the cursor, or does not move. |
| `PlayerStops.FrameStops` | crates/posh-rec/src/player.rs:285-303 | A frame step that returns stops at the first event whose time is further than the gap from the one before, or at the end. |
| `PlayerStops.StepsOneByOne` | crates/posh-rec/src/player.rs:177-195 | A call for n steps takes them one after another and reports how many had something to do. |
| `PlayerStops.FilmNotes` | crates/posh-rec/src/player.rs:92-132 | The film holds all output, and each output event, marker and resize at the offset where the output before it ends, in order. |
| `PlayerStops.StampFirst` | crates/posh-rec/src/player.rs:345-357 | The time of an offset is that of the first event there. |
| `PlayerStops.TimeLatest` | crates/posh-rec/src/player.rs:345-357 | The time at the cursor is that of the last event at or before it. |
| `Players.OneStep` | crates/posh-rec/src/player.rs:234-316 | A step that reports progress has moved the cursor; it reports none exactly at the end or without a further marker. |
| `PlayerProofs.TapeIsReplay` | crates/posh-rec/src/cli.rs:323-341 | Feeding byte by byte with resizes anchored at offsets is replaying event by event. |
| `PlayerProofs.EveryPathReplays` | crates/posh-rec/src/player.rs:175-342 | Any calls in any order: at the end the player is where the plain replay is, all resizes applied, unless the recording has no output and no call has flushed its resizes; and exactly then not. |
| `PlayerProofs.ResizeUnapplied` | crates/posh-rec/src/player.rs:198-211 | A recording of one resize: a step to the next change is at the end and has applied nothing. |
| `PlayerProofs.Anchored` | crates/posh-rec/src/player.rs:327-342 | At every cursor exactly the resizes anchored before it have been applied, each once and in order. |
| `PlayerProofs.ReachesEnd` | crates/posh-rec/src/player.rs:146-148 | `step_to_end` reaches the end. |
| `PlayerProofs.FrameLoops` | crates/posh-rec/src/player.rs:285-303 | A frame step never returns if and only if the recording ends in an empty output event and from the cursor on no pause exceeds the gap. |
| `PlayerProofs.FrameLoopsOnce` | crates/posh-rec/src/player.rs:285-303 | Two output events at 0 seconds, the second one empty: the default gap of 0.1 seconds is enough. |
| `PlayerProofs.OthersReturn` | crates/posh-rec/src/player.rs:177-195 | Steps of every other granularity return. |
| `PlayerProofs.TerminalFits` | crates/posh-term/src/terminal.rs:194-205 | The terminal of this project is such an emulator: feeding in pieces is feeding at once. |

## Left out

- Sgr.StyleOfParams: does not restore the DECSCA flag, which `sgr_params` does not print; `DumpProofs.DrawsPen` covers both.
- TerminalProofs.DumpRestores: covers terminals in their initial modes, margins and charsets, without hyperlinks; OSC 133 marks, images, colors, title, mode replay, tab stops, the two-screen path and the scrollback path of a dump are not modelled.
- ReflowPath.PathIndependent: says nothing of an intermediate width that moves or blanks a wide character, where the results can agree (on that width itself) or differ (`Witnesses.WayMatters`); and rows that hold half a pair, or a spacer unlike its head, are outside it and `ReflowPath.LinesKept`.
- TransportProofs.ExactlyOnce: states are append-only logs; other state types of the protocol are not modelled.
- GraphicsProofs.AlwaysAccounted: runs end before a composition (`a=c`) with a block on a chain it reads that is smaller than it declares, where the source would read outside it; `GraphicsProofs.AlwaysSized` says when none does.
- GraphicsStates.GraphicsState.Handle: the same composition is not handled.
- PngDecode.DecodeFile: memory does not run out before the pixels reach 2^64 bytes, so where only the size limit wraps and the scanlines do not (2^62 bytes of data or more) the model still tells a data error from a panic by the order of its own steps; only a 64-bit `usize` that wraps is modelled, not a build with overflow checks.
- VtParserProofs.ParsesMarked: numbers are printed without leading zeros, and every parameter has at least one part.
- Terminal: width tables are parameters; responses, counters, title, clipboard, colors, palette, key and mouse encoders are not modelled, and what an OSC or APC string does beyond the cell styles is any function of it.
- Terminal: `u16` and `usize` arithmetic on positions and sizes is on natural numbers, with the bounds proved; scrollback sizes and generation counters do not wrap.
- OCB: AES is any permutation with its inverse; memory is a string of bits, so byte order and the SIMD variants do not appear, and key lengths, nonce lengths other than 12 bytes and truncated tags are not modelled.
- OCB: messages reach up to 2^16 blocks, where the precomputed table of L values suffices.
- Transport: datagrams, fragments, encryption, timers of the sender and the sender itself; the receiver starts where an instruction is complete.
- Transport: the throwaway number of an instruction does not exceed its reference number, as the sender issues them; the receiver would otherwise use an erased list entry.
- Prediction: the Experimental preference is modelled but the run theorems exclude it; epochs and frame numbers do not wrap; the keystroke parser and `wcwidth` are parameters; time is an input.
- Prediction: the framebuffer is a value, not shared rows; the branch of `cull` for a row outside the screen is dead by the invariant and does not appear; notifications and titles are not modelled.
- Player: `generation` and the parser's escape state are arbitrary functions of the emulator; times are real numbers; size and time texts are read by parameters.
- Recordings: a number keeps its text, and which texts `f64` accepts is a parameter; writer errors do not occur.
- Graphics: the key table, base64, files, shared memory and response texts are parameters or enumerations; sequence numbers do not wrap; moving a parent placement later does not re-resolve.
- Graphics: maps are values reassigned by the methods, so their iteration order does not appear.
- PNG: the chunk checksum is a parameter.
- DEFLATE: output and input are unbounded sequences; the fixed tables are the lengths of section 3.2.6 of RFC 1951.
