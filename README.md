# SMDR receiver — a Dafny model

The SMDR receiver collects Station Message Detail Recording (SMDR) records:
one CSV line per call, which a telephone system sends over TCP. This project
models the parts of the Python programs that carry the rules:

- **Listener** (`smdr/server.py`, module `Server`). `SMDRServer` binds a new
  socket before it tears down the old one. `stop()` closes the listening
  socket and every client connection. The per-connection loop hands each
  received chunk to a callback after a UTF-8 → Latin-1 → `str()` →
  sentinel decode chain. `Utf8` holds the byte decoders that chain relies on:
  UTF-8 with the "replace" error handler, and Latin-1.
- **Receiver window** (`smdr/gui.py`, module `Gui`):
  - the fixed-width header and row layout;
  - the queue polling that turns received text into raw lines, records, table rows, log lines and a byte counter;
  - the table search, in module `Search`, which the viewer shares;
  - the parsing of `netstat -ano` and `tasklist` output, and the aggregation of `taskkill` return codes.
- **Log-line format** (module `LogLine`). This is `[ts] host:port line`, which
  the window and the service write and the viewer parses back.
- **Viewer** (`smdr_viewer.py`, module `Viewer`). It has a file mode, which
  follows the log file from a byte offset, and a network mode, which reads
  lines from a socket. Every line goes through the same log-line parser.
- **Standalone window** (`smdr_standalone.py`, module `Standalone`):
  - a bounded buffer of full-width rows and their raw lines;
  - the table and raw-log views refreshed from it;
  - the queue drained on a timer;
  - the log viewer dialog, which shows the last 100 lines of a file.
- **Windows service** (`smdr_service.py`, module `Service`). It queues
  received chunks and appends one stamped entry per non-blank line to the log
  file. It counts the characters written and stops at the first failed write.
- **Configuration** (`smdr/config.py`, module `Config`):
  - the search for `smdr_config.json`;
  - the merge of the file over the defaults;
  - the getters and setters, and saving.

`Text` writes out the Python string operations these programs use over
`seq<char>`: `strip`, `split`, `splitlines`, `join`, `ljust`, `in`, `lower`
and `upper` (on the ASCII and Latin-1 letters), `str(int)` and `int(str)`.

Anything that comes from outside the program is a parameter of the function
or method that uses it:

- what the operating system answers to bind, listen, accept and recv;
- file existence, size and contents;
- the CSV reader's result for a line;
- the clock's timestamps;
- netstat/tasklist output and taskkill return codes;
- whether a file write succeeds.

Objects whose fields the source updates are classes: `Server.Listener`,
`Gui.MainWindow`, `Search.Cursor`, `Viewer.ViewerWindow`,
`Standalone.StandaloneWindow`, `Standalone.LogViewerDialog`,
`Service.SMDRService` and `Config.SMDRConfig`. Each method's contract ties the
new state to a specification function of the old state. The properties the
programs promise are then proved about those functions.

## Model

| member | source | states |
|---|---|---|
| Server.FieldNames | smdr/server.py:16-91 | There are exactly 37 field names. |
| Server.Fallback | smdr/server.py:199-213 | The text is the first decode attempt that did not raise: UTF-8, else Latin-1, else `str(data)`, else `"<undecodable data>"`. |
| Server.DecodeChunkOfBytes | smdr/server.py:200 | For real bytes the UTF-8 stage never raises, so the chunk's text is the replace-decoding. A non-empty chunk never decodes to empty text. |
| Server.DecodeChunkOfText | smdr/server.py:200 | Text sent as UTF-8 in one chunk arrives unchanged. |
| Server.DecodeChunkFallsBack | smdr/server.py:201-213 | A chunk whose UTF-8 decode raises yields its Latin-1 decoding. When every attempt raises, it yields the sentinel. |
| Server.FirstEnd | smdr/server.py:190-197 | Gives the index of the first empty chunk, recv error or cleared flag, or the number of events when there is none. |
| Server.DeliveredInOrder | smdr/server.py:190-219 | The callback runs once per chunk before the first ending event, in arrival order, with that chunk's decoded text and the peer address. |
| Server.DeliveredIgnoresLaterEvents | smdr/server.py:190-197 | Events after the first ending event have no effect on the calls. |
| Server.TryBind | smdr/server.py:115-127 | A port outside 0..65535 fails with Python's range message. In range, the bind succeeds exactly when the system accepts it. |
| Server.IsPortAvailable | smdr/server.py:150-175 | True only when the port is in range and the probe bind succeeds. It is always True when the option was set and the bind succeeds, and False when setting the option failed. |
| Server.Listener.constructor | smdr/server.py:100-106 | A new server is stopped: no socket, no clients, no accept thread, port 7000, and the callback as given. |
| Server.Listener.StopCloses | smdr/server.py:226-246 | `stop()` closes one socket per client, plus the listening socket if there is one. |
| Server.Listener.Stop | smdr/server.py:223-252 | Afterwards the flag is cleared and there is no socket, no client and no accept thread. Exactly the listening and client sockets were closed, in order. A second call closes nothing. |
| Server.Listener.Start | smdr/server.py:108-148 | A failed bind raises "Could not bind to port …", and a failed listen re-raises. In both cases only the new socket is closed, and the socket, port, flag, clients and accept thread are unchanged. On success the old listener is stopped first. The new socket, the reported port and a new accept thread take over. When the reported port is one the operating system could assign (`AssignedBy`, the guarantee of `getsockname` that the model takes as given), the port is nonzero, even for a requested port 0. |
| Server.Listener.AcceptOne | smdr/server.py:176-185 | While running, an accepted connection appends one (connection, thread) client. A failed accept, or a cleared flag, ends the loop with nothing changed. |
| Server.Listener.ReceiveLoop | smdr/server.py:189-221 | The callback calls are exactly `Delivered` of the receive events. An exception from the callback is logged, and the loop continues. |
| Server.Listener.HandleClient | smdr/server.py:187-221 | While the flag is set, the calls are those of the receive loop, and with the flag cleared there are none. However the loop ends, the client's connection is closed (`with conn:`), and nothing else in the server changes. |
| Utf8.Decode | smdr/server.py:200 | The replace-decoder yields between a quarter of the bytes and all of them, in characters. |
| Utf8.DecodeEncode | smdr/server.py:200 | Decoding the UTF-8 encoding of any string gives the string back. |
| Utf8.DecodeAscii | smdr/server.py:200 | ASCII bytes decode one character per byte, each with the byte's value. |
| Utf8.SplitCharacterIsReplaced | smdr/server.py:192-200 | A two-byte character split across two recv chunks becomes two U+FFFD characters, whereas in one chunk it decodes whole. |
| Utf8.Latin1Decode | smdr/server.py:206 | Each byte becomes the character with that code point. |
| Utf8.Latin1RoundTrip | smdr/server.py:206 | Latin-1 is a bijection between bytes and the first 256 code points. |
| Gui.Title | smdr/gui.py:418 | `str.title()` keeps the length. |
| Gui.FirstTitle | smdr/gui.py:418 | `call_start_time` is titled `Call Start Time`. |
| Gui.FieldWidthSpec | smdr/gui.py:424-429 | A column is at least as wide as its title and its floor: 19 for names with time/date/smdr, 12 otherwise. It is exactly the larger of the two. |
| Gui.ComputeWidths | smdr/gui.py:423-429 | The loop gives one width per field, each the field's width. |
| Gui.Cell | smdr/gui.py:464-472 | Every cell is exactly its column's width. A value that fits is padded with spaces. A longer one keeps its first w-3 characters followed by `...`, or its first w characters when w <= 3. |
| Gui.RowAlignsWithHeader | smdr/gui.py:431-473 | With the cached widths a row has one cell per field, each as wide as the header's cell. Every column starts at the same offset in the row and in the header, and the two lines are equally long. |
| Gui.RowTextNonEmpty | smdr/gui.py:503 | A row laid out over at least two columns is never empty, so every parsed line is shown formatted. |
| Gui.AsFields | smdr/gui.py:495 | The parsed values, each as a present field, in order. |
| Gui.Show | smdr/gui.py:489-512 | A line's raw form is `[ts] host:port line`. If the line parses, the record kept is the parse result and the text shown is its formatted row. Otherwise the raw line is shown. |
| Gui.ShowKeepsParsed | smdr/gui.py:489-512 | A record is kept exactly when the CSV reader returns one. A line it cannot read is shown raw. |
| Gui.ApplyGrows | smdr/gui.py:499-520 | Handling one more line keeps the growth invariant of polling. |
| Gui.LinesStepGrows | smdr/gui.py:485-521 | Handling the lines of one text keeps the growth invariant. |
| Gui.PollGrows | smdr/gui.py:476-521 | Over any queue, every list only grows. Each non-empty line adds one raw line and one displayed line, with at most one record per raw line. `bytes_received` grows by len(out)+1 per displayed line. The log receives exactly the displayed lines whose own write succeeded, each with a newline, in order. |
| Gui.WrittenConcat | smdr/gui.py:515-519 | The log text for two runs of lines is that of the first run followed by that of the second. |
| Gui.WrittenAll | smdr/gui.py:515-519 | When every write succeeds, the log receives every displayed line with a newline. |
| Gui.WrittenNone | smdr/gui.py:515-519 | When every write fails, the log receives nothing. |
| Gui.Verdicts | smdr/gui.py:910-916 | Gives one classification per netstat line, in order. |
| Gui.ListeningRow | smdr/gui.py:911-916 | A row `TCP local foreign state pid` whose local address ends in `:port` and whose state upper-cases to LISTENING is read as a listener with that PID. |
| Gui.ProcessNameOfCsv | smdr/gui.py:919-927 | The process name read from tasklist's CSV line is the unquoted image name. |
| Gui.OwnersSound | smdr/gui.py:909-929 | There is no owner list exactly when some listening line's PID does not parse. Otherwise every owner comes from a listening line and carries the name given for its PID. |
| Gui.OwnersComplete | smdr/gui.py:909-929 | Every listening line contributes its owner. |
| Gui.CollectOwners | smdr/gui.py:909-929 | The loop over the classified lines computes `OwnersUpTo` of all of them. |
| Gui.GetPortOwners | smdr/gui.py:900-931 | `_get_port_owners` is `PortOwners`, which is empty when netstat fails or a PID does not parse. |
| Gui.KillPids | smdr/gui.py:933-944 | True exactly when every taskkill returned 0. A run that raises ends the loop. |
| Gui.MainWindow.constructor | smdr/gui.py:129-155 | Starts with empty records, raw lines, table, log, queue and search, a zero byte counter and the formatted view. The bold header and a blank line are written once. |
| Gui.MainWindow.FormatHeaders | smdr/gui.py:416-433 | Caches the widths on first use only. The header is the titles, each padded to its width, joined by the three-character separator: a space, a vertical bar and a space. |
| Gui.MainWindow.InsertHeaders | smdr/gui.py:435-446 | Appends the bold header and a blank line once. A second call changes nothing. |
| Gui.MainWindow.OnDataFromServer | smdr/gui.py:412-414 | The (text, addr) item joins the back of the queue, and nothing else changes. |
| Gui.MainWindow.FormatRow | smdr/gui.py:448-473 | The row is `RowText` of the fields with the cached widths. |
| Gui.MainWindow.AppendTableRow | smdr/gui.py:531-537 | The table gains one row: the record padded or cut to one cell per field. |
| Gui.MainWindow.ShowLine | smdr/gui.py:489-512 | Shows one line as `Show` says. |
| Gui.MainWindow.Record | smdr/gui.py:499-521 | Stores a shown line: its raw line, its record and table row, the text and the byte count. The log line is stored only when that line's own write succeeds. |
| Gui.MainWindow.HandleLine | smdr/gui.py:485-521 | An empty line is skipped, and any other is shown and recorded. |
| Gui.MainWindow.HandleItem | smdr/gui.py:483-521 | Every line of one queued text is handled with the one timestamp. Each line's log write succeeds or fails on its own. |
| Gui.MainWindow.PollQueue | smdr/gui.py:476-526 | Drains the queue in order. The new state is `PollSpec` of the old one, as `PollGrows` describes it. |
| Gui.MainWindow.SearchNext | smdr/gui.py:791-802 | A blank term does nothing. In the formatted view any other term searches the table. |
| Gui.MainWindow.ClearSearch | smdr/gui.py:859-864 | Afterwards there are no matches and the index is -1. |
| Search.TableRowShape | smdr/gui.py:531-537 | A row has exactly one cell per field. A long record keeps its first 37 values, and a short one is padded with `''`. |
| Search.BuildTableRow | smdr/gui.py:534-537 | The cell-by-cell loop builds `TableRow`. |
| Search.HitFoldsLatin1 | smdr/gui.py:814 | Case folding covers the accented Latin-1 capitals: "josé" is found in "JOSÉ". |
| Search.RowMatchesSpec | smdr/gui.py:812-815 | The matches within one row are exactly its cells containing the term, in column order. |
| Search.TableMatchesSpec | smdr/gui.py:811-815 | The matches within the first n rows are exactly their cells containing the term, in row-major order. |
| Search.FindMatchesSpec | smdr/gui.py:809-816 | The recomputed matches are exactly the cells containing the lower-cased term, in row-major order. |
| Search.MatchesShareTerm | smdr/gui.py:815 | Every match records the term it was found with. |
| Search.CollectMatches | smdr/gui.py:810-815 | The nested row/column loop computes `FindMatches`. |
| Search.Cursor.constructor | smdr/gui.py:118-119 | Starts with no matches and the index at -1. |
| Search.Cursor.Next | smdr_viewer.py:495-526 | A blank term changes nothing. Otherwise the stripped term is searched for. |
| Search.Cursor.SearchIn | smdr/gui.py:804-831 | A new term, or an empty match list, recomputes the matches and resets the index to -1. With no matches the index stays. Otherwise it advances by one modulo the match count, stays in [0, n), and selects that match. |
| Search.Cursor.Clear | smdr/gui.py:859-863 | Afterwards there are no matches and the index is -1. |
| LogLine.CsvPartSpec | smdr_viewer.py:265-271 | There is a CSV part exactly when the line holds `] ` followed later by a space. That part is a proper tail of the line. |
| LogLine.CsvPartOfStamped | smdr_viewer.py:265-271 | The CSV part of `[ts] host:port line` is the line, when ts has no `]` and the host has no space. |
| Viewer.LineRecordSpec | smdr_viewer.py:257-281 | A line yields a record only when it has a CSV part that parses to a non-empty row, and the record is that row. An empty line, or one without `] `, yields none. |
| Viewer.RowsShape | smdr_viewer.py:226-228 | Reading lines adds at most one row per line, each with one cell per field. |
| Viewer.RowOfShape | smdr_viewer.py:283-290 | A line adds at most one row, of full width. |
| Viewer.LineRecordOfStamped | smdr_viewer.py:265-279 | A line the receiver or the service wrote is read back as the record its CSV data parses to, unless that record is empty. |
| Viewer.ViewerWindow.constructor | smdr_viewer.py:45-82 | Starts in file mode, watching the log file if it exists, and loads it. The table is the file's rows. The offset is the file size when the read completed, else 0. |
| Viewer.ViewerWindow.AddTableRow | smdr_viewer.py:283-290 | Adds one full-width row, and the counter, offset and connection are unchanged. |
| Viewer.ViewerWindow.ProcessLine | smdr_viewer.py:257-281 | Adds a row and counts one line exactly when the line yields a record. |
| Viewer.ViewerWindow.ReadLines | smdr_viewer.py:226-228 | Processes every line read, stripped, in order. |
| Viewer.ViewerWindow.LoadExistingData | smdr_viewer.py:219-232 | Does nothing when the file is absent. Otherwise it processes every line read, and moves the offset to the file size when the read completed. |
| Viewer.ViewerWindow.CheckForUpdates | smdr_viewer.py:238-255 | Nothing happens in network mode, for an absent file, or when the file is not larger than the offset. Otherwise the new lines are processed and the offset moves to the size. The offset never decreases. |
| Viewer.ViewerWindow.OpenLogFile | smdr_viewer.py:308-322 | A chosen file resets the offset, the counter and the table, watches the file if it exists, and loads it. A cancelled dialog changes nothing. |
| Viewer.ViewerWindow.ClearDisplay | smdr_viewer.py:348-357 | On confirmation the table and counter become empty and the offset becomes the current file size, or 0 when the file is absent. |
| Viewer.ViewerWindow.StartNetworkClient | smdr_viewer.py:644-671 | A no-op in network mode or when the connect fails. A connection switches to network mode, stops the timer and the watcher, and starts the reader. |
| Viewer.ViewerWindow.StopNetworkClient | smdr_viewer.py:673-706 | A no-op outside network mode. Otherwise the socket and thread are dropped, and file mode resumes with the watcher and timer. |
| Viewer.ViewerWindow.NetworkLoop | smdr_viewer.py:708-723 | Every streamed line is processed and counted once more, on top of `_process_line`'s count. At end of stream the client stops and file mode resumes. |
| Viewer.ViewerWindow.ReadStream | smdr_viewer.py:712-718 | While the flag is set, each line read is processed and counted. |
| Viewer.ViewerWindow.StreamLine | smdr_viewer.py:713-717 | One streamed line: its row, if it has a record, and one more count. |
| Viewer.ViewerWindow.SearchNext | smdr_viewer.py:495-526 | The same cursor search over the table as the receiver window. |
| Viewer.ViewerWindow.ClearSearch | smdr_viewer.py:528-533 | Afterwards there are no matches and the index is -1. |
| Standalone.Kept | smdr_standalone.py:409-412 | Keeps only non-empty pieces, at most one per piece. |
| Standalone.KeptMembers | smdr_standalone.py:409-412 | A line is kept exactly when it is one of the pieces and is not empty. |
| Standalone.KeptAppend | smdr_standalone.py:410-412 | Keeping preserves the order of the pieces. |
| Standalone.Fit | smdr_standalone.py:419-423 | A row is stored exactly when it has at least 37 values, and then as its first 37. |
| Standalone.Accepted | smdr_standalone.py:418-426 | Gives at most one row per kept line, each exactly 37 values wide. |
| Standalone.AcceptedAppend | smdr_standalone.py:410-426 | Rows keep the order of their lines. |
| Standalone.StampAllSnoc | smdr_standalone.py:415-416 | Each kept line appends one raw line, `[ts] line`, in order. |
| Standalone.HandleKeepsNewest | smdr_standalone.py:428-431 | After a chunk there are at most `max_rows_display` rows, and they are the newest ones. |
| Standalone.HandleTrimsRawOnlyOnOverflow | smdr_standalone.py:429-431 | The raw lines are the old ones plus the chunk's stamped lines. They are cut to the same bound only when the rows overflowed. |
| Standalone.HandleKeepsInv | smdr_standalone.py:414-431 | Rows stay full width, and there is a raw line for every row. |
| Standalone.HandleBounded | smdr_standalone.py:414-431 | After a chunk, rows are full width, each has a raw line, and there are at most `max_rows_display` of them. |
| Standalone.DrainBounded | smdr_standalone.py:392-404 | Draining keeps that invariant. After at least one item the rows are within the limit. |
| Standalone.Cell | smdr_standalone.py:445 | A cell is the first min(len(value), 100) characters of the value. |
| Standalone.Cells | smdr_standalone.py:444-446 | A row shows its first 37 values, each a prefix of at most 100 characters. |
| Standalone.TableOf | smdr_standalone.py:440-446 | The table has one line per stored row. |
| Standalone.RawViewShowsLast | smdr_standalone.py:448-451 | The raw-log tab shows exactly the last 100 raw lines, in order. |
| Standalone.StampAllExcludes | smdr_standalone.py:409-416 | No raw line holds a newline, so each is one line of the raw-log tab. |
| Standalone.LogViewShowsLast | smdr_standalone.py:88-103 | The log viewer shows the file's last 100 lines, and a short file whole. |
| Standalone.LogViewerDialog.constructor | smdr_standalone.py:43-86 | The dialog loads the log once. |
| Standalone.LogViewerDialog.LoadLog | smdr_standalone.py:88-103 | A missing file leaves the text, a read error shows the error, and otherwise the last 100 lines are shown. |
| Standalone.StandaloneWindow.constructor | smdr_standalone.py:244-274 | Starts with empty buffers and queue and a limit of 1000 rows. |
| Standalone.StandaloneWindow.Enqueue | smdr_standalone.py:379-381 | The item joins the back of the queue. The buffers, views, row limit and both labels are unchanged. |
| Standalone.StandaloneWindow.RowCells | smdr_standalone.py:444-446 | One row's cells are `Cells` of the row. |
| Standalone.StandaloneWindow.TableCells | smdr_standalone.py:443-446 | The cell texts are `TableOf` the rows. |
| Standalone.StandaloneWindow.UpdateTable | smdr_standalone.py:440-446 | The table shows the current rows. |
| Standalone.StandaloneWindow.UpdateRawLog | smdr_standalone.py:448-451 | The raw-log tab shows the last 100 raw lines. |
| Standalone.StoreStep | smdr_standalone.py:410-426 | Each piece adds its stamped raw line and accepted row to those of the pieces before it, and an empty piece adds nothing. |
| Standalone.StandaloneWindow.StoreLine | smdr_standalone.py:411-426 | An empty line is skipped. Any other adds its stamped raw line, and its first 37 values when it parses to at least 37. |
| Standalone.StandaloneWindow.StoreLines | smdr_standalone.py:410-426 | The loop appends the stamped kept lines and the accepted rows. |
| Standalone.StandaloneWindow.HandleSmdrData | smdr_standalone.py:406-438 | The buffers become `HandleSpec` of the old ones, and both views are refreshed. |
| Standalone.StandaloneWindow.TakeItem | smdr_standalone.py:396-399 | The front item leaves the queue and is handled. |
| Standalone.StandaloneWindow.Drain | smdr_standalone.py:393-399 | Takes every item in FIFO order, so the buffers become `DrainSpec` of the old ones. `processed` is set exactly when the queue was not empty. The row limit and both labels are unchanged. |
| Standalone.StandaloneWindow.ProcessQueue | smdr_standalone.py:392-404 | Drains the queue in FIFO order, so the buffers become `DrainSpec` of the old ones. The connection label is refreshed only when something was taken, and the status label never changes. With an empty queue the table and raw-log views are unchanged too. |
| Standalone.StandaloneWindow.SetConnections | smdr_standalone.py:404 | The connection label shows the client count. The buffers, views, queue, row limit and status label are unchanged. |
| Standalone.StandaloneWindow.ClearData | smdr_standalone.py:488-495 | On confirmation both buffers and both views are emptied, with status "Data cleared". Otherwise the buffers, views and labels are unchanged. The connection label is never touched. |
| Standalone.StandaloneWindow.SetMaxRows | smdr_standalone.py:474-481 | The new limit comes from the spin box (100..10000). The buffers, both views and both labels are untouched. |
| Service.NonBlank | smdr_service.py:109-111 | The lines kept are at most all of them, and none of them is blank. |
| Service.NonBlankMembers | smdr_service.py:109-111 | A line is kept exactly when it occurs and does not strip to empty. |
| Service.EntriesAreStamped | smdr_service.py:109-114 | There is one entry per non-blank line, the j-th being `[ts] host:port line\n` of the j-th such line. |
| Service.Committed | smdr_service.py:116-120 | The number of writes that happen is the index of the first failing write, or all of them. |
| Service.LoggedIsPrefix | smdr_service.py:109-123 | What one call writes is a prefix of its entries. It is all of them exactly when every write succeeds. |
| Service.LogReadBack | smdr_service.py:107-120 | The file text one call appends splits into its entries' lines, all with the one timestamp. Each line is the stamped non-blank line, and the viewer's CSV extraction gives the received line back. |
| Service.ConcatAppendAll | smdr_service.py:120 | The characters of two runs of entries add up. |
| Service.ChunkLogs | smdr_service.py:93-97 | Gives one run of entries per queued chunk. |
| Service.SMDRService.constructor | smdr_service.py:33-44 | Starts running, with an empty queue, no listener, an empty log and a zero counter. |
| Service.SMDRService.SvcStop | smdr_service.py:46-52 | Clears the flag and stops the listener when there is one. |
| Service.SMDRService.StartListener | smdr_service.py:64-85 | Starts a new listener with the service's callback on the configured port. It is started exactly when the bind succeeds and listen succeeds, and then listens on the reported port. A failed bind passes on "Could not bind to port …", and a failed listen passes on its error. If starting raises, the service stops itself. |
| Service.SMDRService.OnDataReceived | smdr_service.py:87-89 | The chunk joins the back of the queue unchanged. |
| Service.SMDRService.LogData | smdr_service.py:104-123 | The log gains exactly `Logged`: the chunk's entries up to the first failed write. `bytes_received` stays equal to the characters written. |
| Service.SMDRService.WriteLines | smdr_service.py:109-120 | The loop writes the entries up to the first failed write and counts their characters. |
| Service.SMDRService.TakeItem | smdr_service.py:95-97 | The front chunk leaves the queue and is logged after the chunks before it. |
| Service.SMDRService.ProcessQueue | smdr_service.py:91-102 | When stopped, nothing happens. When running, the queue is drained in FIFO order and each chunk's entries are appended in turn. |
| Config.FirstQualifying | smdr/config.py:27-49 | Gives the first candidate whose directory and file exist, and no earlier candidate qualifies. None means no candidate qualifies. |
| Config.FindConfigFileIsFirst | smdr/config.py:27-49 | The search returns the first existing file in the order working directory, install directory, AppData. With none, it returns the working-directory path. |
| Config.LoadConfig | smdr/config.py:51-67 | The keys are the defaults' plus the file's, and file values win. Untouched defaults are kept. A missing or unreadable file gives the defaults. |
| Config.Lookup | smdr/config.py:85-87 | `dict.get` gives the stored value for a present key and the default otherwise. |
| Config.PathOf | smdr/config.py:105 | `Path(v)` gives a path exactly for a string value, and the path is that string. Any other value raises (None). |
| Config.GettersOfLoaded | smdr/config.py:93-114 | On a loaded configuration each getter gives the file's value when the file has the key, and else 7004, `smdr.log` or True. |
| Config.SMDRConfig.constructor | smdr/config.py:18-25 | Uses the given path or the searched one, and loads the configuration. A missing file gets the defaults written. |
| Config.SMDRConfig.SaveConfig | smdr/config.py:69-83 | Adopts a given configuration, then writes. A failed mkdir raises, and otherwise the result says whether the write succeeded. |
| Config.SMDRConfig.Get | smdr/config.py:85-87 | Gives the stored value for a present key and the caller's default otherwise. |
| Config.SMDRConfig.GetPort | smdr/config.py:93-95 | Gives the stored port, or the default 7004 when none is stored. |
| Config.SMDRConfig.GetLogFile | smdr/config.py:102-105 | Gives `smdr.log` when no log file is stored, and a stored string as its path. Any other stored value gives the TypeError (None). |
| Config.SMDRConfig.GetAutoStart | smdr/config.py:112-114 | Gives the stored flag, or the default True when none is stored. |
| Config.SMDRConfig.Set | smdr/config.py:89-91 | Only that key changes, and it now reads back as the value. |
| Config.SMDRConfig.SetPort | smdr/config.py:97-100 | `get_port()` returns the new port, and the configuration is saved. |
| Config.SMDRConfig.SetLogFile | smdr/config.py:107-110 | Stores the path as a string, and `get_log_file()` returns it. |
| Config.SMDRConfig.SetAutoStart | smdr/config.py:116-119 | `get_auto_start()` returns the new flag, and the configuration is saved. |
| Text.Lower | smdr/gui.py:806 | `lower()` keeps the length and maps each character on its own. A–Z and the Latin-1 capitals go to lower case, and every other character is kept. |
| Text.Upper | smdr/gui.py:915 | `upper()` keeps the length and maps each character on its own. a–z and the Latin-1 small letters go to upper case, except `ß`, and every other character is kept. |
| Text.StripEmptyIffAllSpace | smdr_service.py:110 | `line.strip()` is empty exactly when the line is all whitespace. |
| Text.SplitLines | smdr_service.py:109 | `splitlines()` yields lines without breaks, and no lines for empty text. |
| Text.SplitLinesOfTerminated | smdr_service.py:114-118 | Newline-terminated lines split back into the same lines. |
| Text.JoinSplit | smdr_standalone.py:95-96 | Joining the pieces of `split('\n')` with `'\n'` gives the text back. |
| Text.SplitJoin | smdr_standalone.py:95-96 | Splitting a join of newline-free lines gives the lines back. |
| Text.TailSpec | smdr_standalone.py:96 | `xs[-n:]` is a suffix of length min(n, len(xs)), and all of xs when n is 0. |
| Text.LJust | smdr/gui.py:432 | `ljust(w)` keeps the string, pads with spaces, and is at least w long. |
| Text.WordsOfJoin | smdr/gui.py:911 | `split()` of space-separated words gives the words. |
| Text.ParseIntOfString | smdr/gui.py:916 | `int(str(n)) == n`. |
| Text.SplitOnceSpec | smdr_viewer.py:265-268 | `split(sep, 1)` gives the text before and after the first occurrence, and a single piece when there is none. |
| Text.FindFromSpec | smdr/gui.py:814 | `find` returns the first occurrence at or after the start. |
| Text.QuotedFirstColumn | smdr/gui.py:922-923 | The first comma piece of a quoted CSV line, stripped of whitespace and quotes, is the quoted value. |

## Left out

- **Qt, sockets, threads.** The Qt widgets, dialogs, palettes, green-bar shading, icons, tray and clipboard are left out. So are real sockets, threads, the accept thread's join with its timeout, and the `threading.Event` flags. Their outcomes are parameters, and the flags are booleans.
- **The service framework.** The win32 service framework (`SvcDoRun`, the event-log messages, `WaitForSingleObject`) is left out. So is the wait loop of `main` (smdr_service.py:78-81); only the listener start and its error path are modelled.
- **Polling sleeps.** `time.sleep` and the 0.1 s queue timeout are left out. `Service.SMDRService.ProcessQueue` drains the whole queue while the flag is set, because the flag only changes from another thread.
- **Subprocesses and I/O.** Subprocess calls (netstat, tasklist, taskkill), file reads and writes, `json`, the `csv` module and the clock are left out. Their results are parameters (`parse`, `stamp`, `writable`, `FileStat`, `Read`, `ConfigSource`).
- **Text-view search.** The text-view search of the receiver window (`_search_in_text`, smdr/gui.py:833-857) relies on QTextEdit's cursor and is not modelled.
- **Export and dialogs.** CSV export, copy, save-as, the port-owner dialogs and the debug sender are left out (smdr/gui.py:618-790 and 873-1135). So are `_clear_log` and `_export_log` of the log viewer, and `_export_csv` of the viewer and the standalone window. They are file and clipboard output of data already modelled.
- **Dead block.** The block at smdr/gui.py:318-376 refers to an undefined `file_menu` and is not modelled.
- **Missing config getters.** The viewer's `get_service_host`, `get_viewer_port` and `set_viewer_port` calls have no definition in smdr/config.py. The viewer's connect outcome is a parameter instead. As written, smdr_viewer.py:648 calls `get_service_host()` outside the `try`, so `_start_network_client` raises AttributeError before it connects, and the viewer never enters network mode. The `Connected` branch of `Viewer.ViewerWindow.StartNetworkClient` models the evidently intended code, not the code as written.
- **create_default_config** (smdr/config.py:122-127) is a one-line installer helper and is not modelled.
- **Config paths.** `Path` normalisation (separators, `..`) is not modelled: paths are strings joined with `/`.
- **Config file contents.** A JSON file that holds a list of pairs, which `dict.update` would also accept, is treated as unreadable. Only a JSON object merges.
- Config.SMDRConfig.constructor: assumes the directory creation in the first save of a missing file succeeds. A failing `mkdir` there raises out of `SMDRConfig()` in the source.
- Service.SMDRService.LogData: `bytes_received` counts characters (`len` of a `str`), as the source does. It is not UTF-8 bytes.
- Service.SMDRService.StartListener: the service's listener is only ever set here, as `main` does. A failure inside the wait loop is not modelled.
- Gui.MainWindow.SearchNext: in the raw-text view this returns no selection and leaves the matches as they were. The source's text-widget search is not modelled. In the table view, case is folded on the ASCII and Latin-1 letters only (see Text.Lower).
- Text.Lower / Text.Upper: the case mapping covers the ASCII and Latin-1 letters only. Other Unicode letters (Greek, Cyrillic, …) are kept as they are, and `upper()` keeps `ß` where Python gives `SS`. Search.Hit and Gui.Classify use them, so a search in the model is case-sensitive on those letters, and a netstat state in other scripts is compared as written.
- Search.RowMatchesSpec: case is folded on the ASCII and Latin-1 letters only (see Text.Lower).
- Search.TableMatchesSpec: case is folded on the ASCII and Latin-1 letters only (see Text.Lower).
- Search.FindMatchesSpec: case is folded on the ASCII and Latin-1 letters only (see Text.Lower).
- Search.CollectMatches: case is folded on the ASCII and Latin-1 letters only (see Text.Lower).
- Search.Cursor.Next: case is folded on the ASCII and Latin-1 letters only (see Text.Lower).
- Search.Cursor.SearchIn: case is folded on the ASCII and Latin-1 letters only (see Text.Lower).
- Viewer.ViewerWindow.SearchNext: case is folded on the ASCII and Latin-1 letters only (see Text.Lower).
- Gui.MainWindow.AppendTableRow / Viewer.ViewerWindow.AddTableRow / Search.Cursor.SearchIn: both record tables turn on Qt sorting when they are created (smdr/gui.py:89, smdr_viewer.py:97). Qt keeps a sorted table ordered by its sort column and moves a row when `setItem` writes that column. The sort and those row moves are not modelled, so the model's tables are in insertion order, and the search's row-major order and each match's `(row, col)` are taken over that order.
- **Integer parsing.** Non-ASCII digits accepted by `int()` are not modelled by `Text.ParseInt`.
- **str.title().** `str.title()` is modelled on ASCII letters only, which covers the field names.
