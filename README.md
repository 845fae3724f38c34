# Taxi dispatch: a Dafny model

This project models the core of a taxi-dispatch system made of four Java services:

- **the coordinator** (`EC_Central`):
  - authenticates taxis over a socket with STX/ETX/LRC frames;
  - keeps a taxi table, a customer table, a location table and a customer-taxi assignment table;
  - answers customers' `clientId#destination` ride requests by assigning the first available taxi with a connected socket. "Connected" is what `Socket.isConnected()` answers: it stays true after a socket is closed, so a taxi whose session ended by an error keeps its entry and stays assignable;
  - reacts to the position reports taxis publish;
  - draws a 20 by 20 city snapshot.
- **the registry** (`EC_Registry`) registers and unregisters taxis by identifier.
- **the taxi** (`EC_DE`) authenticates with the coordinator. On each directive it drives, one cell per move, to its base or to the customer and then to the destination, and reports every move.

The model keeps each source file's form.

- **Frames and text parsing** (`Checksum`, `MessageHandler`, `SocketService`, and the string helpers in `Java`) are functions on UTF-16 strings (`seq<bv16>`).
  - The accumulator loops (`calculateLRC`, `buildRequest`, `buildMessage`) are methods, proved against those functions.
- **Services that change state** are classes whose fields are the tables, maps and logs they update:
  - the coordinator's and the registry's `TaxiService`;
  - `LocationService`, `ClientHandler`, and the two `KafkaService`s;
  - `CityMap` and `ShortestPathFinder`.
- **Repository rows** are sequences in `findAll` order. `save` replaces the row with the same key or appends. A derived single-result query (`findByIdentifier`, `findTaxiByIdentifier`, `findByIdTaxiId`) gives no row, one row, or an `IncorrectResultSizeDataAccessException` (`IncorrectResultSize`) when several rows match.
- **Bus messages** sent with `kafkaTemplate.send` are appended to an `outbox`. Topics created through the Kafka admin are appended to a list.
- **Exceptions** that escape are `Throw(e)` values of a `Result`. An I/O failure ends a connection as `ConnectionLost`.

Where the code and its documentation disagree, the model follows the code:

- **Snapshot colours.** `populateMap` draws locations YELLOW and customers BLUE, although the `Color` enum labels YELLOW "customer" and BLUE "location".
- **The shared secret.** The authentication frame is `AUTH#<taxiId>#token123`, whatever the comment above `authenticate` says.
- **Splitting.** `split` drops trailing empty pieces, so a frame or line ending in the separator has fewer pieces than separators plus one.

## Model

| member | source | states |
|---|---|---|
| Java.Lit | EC_Central/src/main/java/org/example/ec_central/service/MessageHandler.java:80 | a definition: a string literal as UTF-16 code units, one per character; the characters the proofs rely on are checked where they are used (ArrivalLetters) |
| Java.Filter | EC_Central/src/main/java/org/example/ec_central/service/TaxiService.java:36-39 | `stream().filter` keeps exactly the elements that pass, and only those |
| Java.FilterNone | EC_Central/src/main/java/org/example/ec_central/service/TaxiService.java:56-58 | a filter that no element passes gives the empty list |
| Java.FilterSingle | EC_Central/src/main/java/org/example/ec_central/service/LocationService.java:83-86 | when exactly one element passes, the filtered list is that element |
| Java.MatchingTwo | EC_Central/src/main/java/org/example/ec_central/repository/TaxiRepository.java:40 | two passing elements leave at least two after filtering |
| Java.FindOne | EC_Central/src/main/java/org/example/ec_central/repository/TaxiRepository.java:40 | the single-result query finds nothing exactly when no row matches; a found row is the only matching one; the only error is IncorrectResultSize |
| Java.FindOneSeveral | EC_Central/src/main/java/org/example/ec_central/repository/TaxiRepository.java:40 | two matching rows make the query fail with IncorrectResultSize |
| Java.FilterReplace | EC_Central/src/main/java/org/example/ec_central/service/TaxiService.java:88-94 | replacing a row by one that passes the same filter keeps the number of matches |
| Java.FindOneReplace | EC_Central/src/main/java/org/example/ec_central/service/TaxiService.java:88-94 | after a successful query, replacing the found row by another matching row makes the query find the new row |
| Java.FirstIndex | EC_Central/src/main/java/org/example/ec_central/service/TaxiService.java:76-81 | `findFirst` gives the first position that passes, with none before it, or -1 exactly when none passes |
| Java.FirstIndexCons | EC_Central/src/main/java/org/example/ec_central/service/TaxiService.java:76-81 | `findFirst` on a list is the head, or one past what the tail gives |
| Java.FirstIndexIs | EC_Central/src/main/java/org/example/ec_central/service/TaxiService.java:76-81 | an element that passes, with none passing before it, is the one `findFirst` finds |
| Java.FilterHead | EC_Central/src/main/java/org/example/ec_central/service/TaxiService.java:36-39 | the head of a filtered list is the element `findFirst` finds |
| Java.IndexOf | EC_Central/src/main/java/org/example/ec_central/service/MessageHandler.java:125 | `indexOf` is the first position holding the character, or -1 exactly when it is absent |
| Java.Contains | EC_Central/src/main/java/org/example/ec_central/service/KafkaService.java:89 | `s.contains(p)`: `p` occurs in `s` as a contiguous block; the empty pattern and `s` itself are always contained, and a pattern longer than `s` never is (also used for `request.contains("EOT")` in the request loop) |
| Java.SplitAll | EC_Central/src/main/java/org/example/ec_central/service/LocationService.java:56 | no piece between separators contains the separator |
| Java.DropTrailingEmpty | EC_Central/src/main/java/org/example/ec_central/service/LocationService.java:56 | `split` keeps a prefix of the pieces that does not end in an empty piece; everything dropped is empty |
| Java.Split | EC_Central/src/main/java/org/example/ec_central/service/LocationService.java:56 | `String.split` on one character: the string itself when the separator is absent, otherwise the pieces with the trailing empty ones dropped; its properties are proved by DropTrailingEmpty, SplitAllJoin and JavaSplitJoin |
| Java.CountAppend | EC_Central/src/main/java/org/example/ec_central/service/LocationService.java:56 | separator counts add up over a concatenation |
| Java.CountZero | EC_Central/src/main/java/org/example/ec_central/service/LocationService.java:56 | the count is zero exactly when the separator is absent |
| Java.IndexOfAt | EC_Central/src/main/java/org/example/ec_central/service/MessageHandler.java:125 | a position holding the character, with none before it, is what `indexOf` returns |
| Java.SplitAllNone | EC_Central/src/main/java/org/example/ec_central/service/LocationService.java:56 | a string without the separator splits into itself alone |
| Java.SplitAllAround | EC_Central/src/main/java/org/example/ec_central/service/LocationService.java:56 | splitting at one separator splits the two sides independently |
| Java.SplitAllAroundFree | EC_Central/src/main/java/org/example/ec_central/service/LocationService.java:56 | a separator-free prefix is the first piece |
| Java.SplitAllTwoFree | EC_Central/src/main/java/org/example/ec_central/service/ClientHandler.java:72 | two separator-free pieces, each followed by the separator, are the first two pieces |
| Java.SplitAllAroundFirst | EC_Central/src/main/java/org/example/ec_central/service/LocationService.java:56 | the first piece ends at the first separator, also inside a longer string |
| Java.SplitAllFirst | EC_Central/src/main/java/org/example/ec_central/service/LocationService.java:56 | the first piece ends at the first separator |
| Java.SplitAllLength | EC_Central/src/main/java/org/example/ec_central/service/LocationService.java:56-57 | there is one more piece than separators |
| Java.SplitAllJoin | EC_Central/src/main/java/org/example/ec_central/service/MessageHandler.java:24-30 | splitting pieces joined with the separator gives the pieces back when none holds it |
| Java.SplitAllJoinLast | EC_Central/src/main/java/org/example/ec_central/service/MessageHandler.java:28-30 | joining one more separator-free field adds exactly that piece to the split |
| Java.JoinFree | EC_Central/src/main/java/org/example/ec_central/service/MessageHandler.java:24-30 | joining introduces no character other than the separator |
| Java.SplitKeepsSecond | EC_Central/src/main/java/org/example/ec_central/service/KafkaService.java:103-105 | a non-empty second piece survives Java's dropping of trailing empty pieces |
| Java.JavaSplitJoin | EC_Central/src/main/java/org/example/ec_central/service/MessageHandler.java:24-30 | Java's `split` of a joined message gives the operation code and the fields back when none holds the separator and the last field is not empty |
| Java.DigitValue | EC_Central/src/main/java/org/example/ec_central/service/LocationService.java:59-60 | a digit's value is 0 to 9, or -1 for a non-digit |
| Java.ParseInt | EC_Central/src/main/java/org/example/ec_central/service/LocationService.java:59-60 | `Integer.parseInt` only gives values in the 32-bit range |
| Java.Decimal | EC_Central/src/main/java/org/example/ec_central/service/LocationService.java:59-60 | a non-negative number is written as a non-empty run of digits |
| Java.DecimalValue | EC_Central/src/main/java/org/example/ec_central/service/LocationService.java:59-60 | the digits written for a number read back as that number |
| Java.DigitOf | EC_Central/src/main/java/org/example/ec_central/service/LocationService.java:59-60 | the character written for a digit reads back as that digit |
| Java.ParseFormatInt | EC_Central/src/main/java/org/example/ec_central/service/LocationService.java:59-60 | parsing what `Integer.toString` writes gives back every 32-bit int |
| Java.ParseFormatNegative | EC_Central/src/main/java/org/example/ec_central/service/LocationService.java:59-60 | the round trip holds for negative ints, down to the minimum |
| Java.ParseMinus | EC_Central/src/main/java/org/example/ec_central/service/LocationService.java:59-60 | a minus sign followed by digits parses as the negated value when it fits |
| Java.ParseFormatNatural | EC_Central/src/main/java/org/example/ec_central/service/LocationService.java:59-60 | the round trip holds for non-negative ints |
| Checksum.Frame | EC_Central/src/main/java/org/example/ec_central/service/MessageHandler.java:36 | a frame is three characters longer than its data |
| Checksum.ExtractData | EC_Central/src/main/java/org/example/ec_central/service/MessageHandler.java:124-126 | `extractData` succeeds exactly when the first ETX comes after position 0; the data is everything before it, with no ETX |
| Checksum.FrameData | EC_Central/src/main/java/org/example/ec_central/service/MessageHandler.java:124-126 | in a frame of ETX-free data the first ETX is the closing one, so `extractData` gives the data back |
| Checksum.CalculateLrc | EC_Central/src/main/java/org/example/ec_central/service/MessageHandler.java:45-51 | the XOR accumulator loop computes the LRC of the data |
| Checksum.LrcAppend | EC_DE/src/main/java/org/example/ec_de/services/SocketService.java:184-190 | the LRC of a concatenation is the XOR of the parts' LRCs |
| Checksum.LrcDetectsOneChange | EC_Central/src/main/java/org/example/ec_central/service/MessageHandler.java:68 | changing any one character changes the LRC |
| MessageHandler.BuildRequest | EC_Central/src/main/java/org/example/ec_central/service/MessageHandler.java:24-37 | `buildRequest` frames the operation code followed by `#field` for every field: STX, the data, ETX, and the data's LRC last |
| MessageHandler.IsValidMessage | EC_Central/src/main/java/org/example/ec_central/service/MessageHandler.java:60-71 | the check throws only on the empty string or a lone STX; an accepted message starts with STX and has ETX second to last |
| MessageHandler.BuildAck | EC_Central/src/main/java/org/example/ec_central/service/MessageHandler.java:79-83 | `buildAck` builds a frame that passes the check and carries ACK or NACK |
| MessageHandler.ExtractDestination | EC_Central/src/main/java/org/example/ec_central/service/MessageHandler.java:134-143 | a destination is only extracted from a valid request |
| MessageHandler.FrameRoundTrip | EC_Central/src/main/java/org/example/ec_central/service/MessageHandler.java:60-71 | a frame of ETX-free data passes the check and gives its data back |
| MessageHandler.RequestRoundTrip | EC_Central/src/main/java/org/example/ec_central/service/MessageHandler.java:24-37 | a request built from separator-free, ETX-free fields passes the check; its data splits back into the operation code and the fields |
| MessageHandler.ValidMessageIsFrame | EC_Central/src/main/java/org/example/ec_central/service/MessageHandler.java:60-71 | an accepted message with no ETX inside its data is exactly the frame of that data |
| MessageHandler.TamperedFrameRejected | EC_Central/src/main/java/org/example/ec_central/service/MessageHandler.java:60-71 | changing one data character of a frame to another non-ETX character makes the check answer false |
| MessageHandler.LrcChangedAt | EC_Central/src/main/java/org/example/ec_central/service/MessageHandler.java:68 | replacing one character by a different one changes the LRC |
| MessageHandler.CheckedAgainst | EC_Central/src/main/java/org/example/ec_central/service/MessageHandler.java:62-68 | a frame around ETX-free data passes exactly when its last character is the data's LRC |
| MessageHandler.ValidRequestIsFrame | EC_Central/src/main/java/org/example/ec_central/service/MessageHandler.java:101-113 | `isValidRequest` holds exactly when the request has at least four characters and is the frame of its middle part |
| MessageHandler.IsValidRequest | EC_Central/src/main/java/org/example/ec_central/service/MessageHandler.java:101-113 | `isValidRequest`: at least four characters, STX first, ETX second to last and the LRC last; ValidRequestIsFrame proves this is exactly a frame of the middle part |
| MessageHandler.DestinationOfRequest | EC_Central/src/main/java/org/example/ec_central/service/MessageHandler.java:134-143 | the destination extracted from a built request is its first field |
| SocketService.AuthData | EC_DE/src/main/java/org/example/ec_de/services/SocketService.java:108 | the authentication data is the identifier plus 14 fixed characters; its content, AUTH, `#`, the identifier, `#` and the secret, is stated by ClientHandler.AuthDataShape |
| SocketService.BuildMessage | EC_DE/src/main/java/org/example/ec_de/services/SocketService.java:173-176 | `buildMessage` builds the frame of the data, which the taxi's own check accepts and unpacks when the data has no ETX |
| SocketService.IsValidMessage | EC_DE/src/main/java/org/example/ec_de/services/SocketService.java:198-206 | the taxi's check throws only on the empty string; an accepted message starts with STX and ends with the LRC of the data before its first ETX |
| SocketService.AuthReplyAccepted | EC_DE/src/main/java/org/example/ec_de/services/SocketService.java:112-124 | `authenticate` accepts a reply only when it is a valid frame whose data is exactly ACK |
| SocketService.FrameAccepted | EC_DE/src/main/java/org/example/ec_de/services/SocketService.java:198-216 | a frame of ETX-free data passes the taxi's check and gives its data back |
| SocketService.ExtraCharactersTolerated | EC_DE/src/main/java/org/example/ec_de/services/SocketService.java:198-206 | the taxi's check ignores anything between the closing ETX and the last character |
| SocketService.AckLrc | EC_DE/src/main/java/org/example/ec_de/services/SocketService.java:184-190 | the LRC of ACK is the character 'I' |
| SocketService.AcceptedReplyShape | EC_DE/src/main/java/org/example/ec_de/services/SocketService.java:112-124 | every accepted reply starts with STX, ACK and ETX and ends with the LRC of ACK |
| SocketService.ShapedReplyAccepted | EC_DE/src/main/java/org/example/ec_de/services/SocketService.java:112-124 | every reply of that shape is accepted |
| SocketService.SocketService.constructor | EC_DE/src/main/java/org/example/ec_de/services/SocketService.java:39-60 | the taxi starts unconnected and has written nothing |
| SocketService.SocketService.Authenticate | EC_DE/src/main/java/org/example/ec_de/services/SocketService.java:105-125 | a failed connection throws before anything is written; otherwise the authentication frame is written, a missing reply is an IOException, and a reply is accepted exactly as `AuthReplyAccepted` says |
| PathFinder.StepAxis | EC_DE/src/main/java/org/example/ec_de/model/ShortestPathFinder.java:42-52 | one move on an axis changes the coordinate by at most one, toward the target, and shortens the distance by one unless already there |
| PathFinder.Step | EC_DE/src/main/java/org/example/ec_de/model/ShortestPathFinder.java:42-52 | one call brings the taxi exactly one move closer, by the larger of the two axis distances; it lands on the target exactly when it was at most one move away |
| PathFinder.WalkArrives | EC_DE/src/main/java/org/example/ec_de/model/ShortestPathFinder.java:40-58 | after n calls the taxi stands on the target exactly when n is at least the distance |
| PathFinder.Path | EC_DE/src/main/java/org/example/ec_de/model/ShortestPathFinder.java:40-58 | the positions passed before arriving number one less than the distance |
| PathFinder.PathIsWalk | EC_DE/src/main/java/org/example/ec_de/model/ShortestPathFinder.java:40-58 | the i-th position passed is the position after i + 1 calls, and it is never the target |
| PathFinder.ShortestPathFinder.constructor | EC_DE/src/main/java/org/example/ec_de/model/ShortestPathFinder.java:16-31 | a new finder stands at (0, 0), is not stopped, and is ASSIGNED |
| PathFinder.ShortestPathFinder.GetNextPosition | EC_DE/src/main/java/org/example/ec_de/model/ShortestPathFinder.java:40-58 | the position becomes one `Step` toward the target; `stop` is raised on arrival and never lowered; the phase is kept; the new position is returned |
| CityGrid.CityMap.constructor | EC_Central/src/main/java/org/example/ec_central/model/CityMap.java:27-32 | a new map is 20 by 20 with every cell white and empty |
| CityGrid.CityMap.GetPosition | EC_Central/src/main/java/org/example/ec_central/model/CityMap.java:55-57 | inside the grid the cell is returned; outside, the array access throws |
| CityGrid.CityMap.UpdatePosition | EC_Central/src/main/java/org/example/ec_central/model/CityMap.java:42-46 | inside the grid exactly that cell takes the new colour and text; outside nothing changes |
| CitySnapshot.LocationMarkers | EC_Central/src/main/java/org/example/ec_central/service/KafkaService.java:325-337 | a definition: the location loop draws each location yellow at its position, in table order; what the grid then shows is proved by PaintedLists and PopulateMap |
| CitySnapshot.CustomerMarkers | EC_Central/src/main/java/org/example/ec_central/service/KafkaService.java:340-352 | a definition: the customer loop draws each customer blue at its position, in table order; proved about by PaintedLists and PopulateMap |
| CitySnapshot.TaxiMarkers | EC_Central/src/main/java/org/example/ec_central/service/KafkaService.java:355-368 | a definition: the taxi loop draws each taxi at its position, red exactly when STOPPED and green otherwise; proved about by PaintedLists and PopulateMap |
| CitySnapshot.MarkersAt | EC_Central/src/main/java/org/example/ec_central/service/KafkaService.java:321-371 | the markers standing on one cell, in drawing order, never more than were drawn; PaintedLists proves a drawn cell lists exactly these |
| CitySnapshot.Identifiers | EC_Central/src/main/java/org/example/ec_central/service/KafkaService.java:329 | a definition: the markers' identifiers in drawing order, the text PaintedLists shows a cell holds |
| CitySnapshot.ListedEmpty | EC_Central/src/main/java/org/example/ec_central/service/KafkaService.java:333 | a list of non-empty identifiers is written empty exactly when there are none |
| CitySnapshot.PaintedLists | EC_Central/src/main/java/org/example/ec_central/service/KafkaService.java:331-336 | when no identifier is empty, a drawn cell lists the identifiers standing there, in drawing order, separated by ", ", in the colour of the last one; it stays white when none stands there |
| CitySnapshot.PaintedAppend | EC_Central/src/main/java/org/example/ec_central/service/KafkaService.java:321-371 | drawing one list after another is drawing their concatenation |
| CitySnapshot.MarkersAtNamed | EC_Central/src/main/java/org/example/ec_central/service/KafkaService.java:329 | the markers on a cell are among those drawn, so their identifiers are not empty |
| CitySnapshot.Plot | EC_Central/src/main/java/org/example/ec_central/service/KafkaService.java:326-337 | the drawing loop draws every marker in order; the first one outside the grid throws, after the ones before it are drawn |
| CitySnapshot.Draw | EC_Central/src/main/java/org/example/ec_central/service/KafkaService.java:332-336 | one marker appends its identifier to its own cell and gives it its colour; outside the grid the read throws and nothing changes |
| CentralTaxiService.Saved | EC_Central/src/main/java/org/example/ec_central/service/TaxiService.java:45 | `save` keeps primary keys unique, stores the taxi, and keeps every row with another key |
| CentralTaxiService.SavedAt | EC_Central/src/main/java/org/example/ec_central/service/TaxiService.java:45 | saving a row read from the table overwrites exactly that row |
| CentralTaxiService.FindByIdentifier | EC_Central/src/main/java/org/example/ec_central/repository/TaxiRepository.java:40 | finds nothing exactly when no row has the identifier; a found row is the only one with it; several rows are IncorrectResultSize |
| CentralTaxiService.FindByIdentifierReplace | EC_Central/src/main/java/org/example/ec_central/service/TaxiService.java:88-94 | once the query finds a row, it finds that row's replacement as long as the identifier is kept |
| CentralTaxiService.SavedTwice | EC_Central/src/main/java/org/example/ec_central/service/TaxiService.java:45 | saving the same row twice keeps only the second version |
| CentralTaxiService.FindByUniqueIdentifier | EC_Central/src/main/java/org/example/ec_central/repository/TaxiRepository.java:40 | with unique identifiers the single-result query never fails |
| CentralTaxiService.MatchingAtMostOne | EC_Central/src/main/java/org/example/ec_central/repository/TaxiRepository.java:40 | with unique identifiers at most one row matches |
| CentralTaxiService.TaxiService.constructor | EC_Central/src/main/java/org/example/ec_central/service/TaxiService.java:24-26 | the service starts on a table with unique keys |
| CentralTaxiService.TaxiService.AssignAvailableTaxi | EC_Central/src/main/java/org/example/ec_central/service/TaxiService.java:35-49 | none exactly when no taxi is available, and then nothing changes; otherwise the first available taxi in table order alone is made unavailable and moved to (x, y), and is returned |
| CentralTaxiService.TaxiService.FindAllAvailableTaxis | EC_Central/src/main/java/org/example/ec_central/service/TaxiService.java:56-58 | exactly the available taxis of the table |
| CentralTaxiService.TaxiService.ReleaseTaxi | EC_Central/src/main/java/org/example/ec_central/service/TaxiService.java:65-68 | the taxi's row is saved back available, and no other field or row changes |
| CentralTaxiService.TaxiService.FindTaxiByIdentifier | EC_Central/src/main/java/org/example/ec_central/service/TaxiService.java:76-81 | the first taxi in table order with that identifier, or none exactly when no taxi has it |
| CentralTaxiService.TaxiService.UpdateTaxiLocationByIdentifier | EC_Central/src/main/java/org/example/ec_central/service/TaxiService.java:88-94 | the one taxi with the report's identifier takes the reported position and state, keeping availability and destination; no such taxi is a NullPointerException and several are IncorrectResultSize, with the table unchanged |
| Registry.TaxiService.constructor | EC_Registry/src/main/java/org/example/ec_registry/service/TaxiService.java:15-17 | the registry starts empty |
| Registry.TaxiService.GetTaxi | EC_Registry/src/main/java/org/example/ec_registry/service/TaxiService.java:43-45 | the taxi registered under the identifier, present exactly when registered |
| Registry.TaxiService.RegisterTaxi | EC_Registry/src/main/java/org/example/ec_registry/service/TaxiService.java:19-33 | a known identifier is refused with "Taxi ya registrado" and nothing changes; otherwise a new taxi is saved available at (1, 1), IDLE, with no destination, and it is then found under its identifier |
| Registry.TaxiService.UnregisterTaxi | EC_Registry/src/main/java/org/example/ec_registry/service/TaxiService.java:35-40 | an unknown identifier is refused with "Taxi no encontrado"; otherwise exactly that taxi is removed and every other lookup is unchanged |
| LocationService.ParseLine | EC_Central/src/main/java/org/example/ec_central/service/LocationService.java:56-67 | a line either throws a NumberFormatException or yields a location whose name has no space and whose coordinates are ints |
| LocationService.ParseLineCases | EC_Central/src/main/java/org/example/ec_central/service/LocationService.java:56-67 | a line is skipped exactly when it does not split into three pieces; it throws exactly when it does but a number is malformed; otherwise it yields the three pieces as a location |
| LocationService.SplitFree | EC_Central/src/main/java/org/example/ec_central/service/LocationService.java:56 | no piece of a Java split holds the separator |
| LocationService.FormatIntHasNoSpace | EC_Central/src/main/java/org/example/ec_central/service/LocationService.java:59-60 | a written number is non-empty and has no space |
| LocationService.LineRoundTrip | EC_Central/src/main/java/org/example/ec_central/service/LocationService.java:56-67 | a location written as `identifier x y` reads back as itself |
| LocationService.Produced | EC_Central/src/main/java/org/example/ec_central/service/LocationService.java:56-67 | a line saves at most one location |
| LocationService.Accepted | EC_Central/src/main/java/org/example/ec_central/service/LocationService.java:55-70 | the lines save at most one location each, all well-formed |
| LocationService.FirstMalformed | EC_Central/src/main/java/org/example/ec_central/service/LocationService.java:55-67 | the first malformed line's position, or -1 |
| LocationService.FirstMalformedIsFirst | EC_Central/src/main/java/org/example/ec_central/service/LocationService.java:55-67 | -1 exactly when no line is malformed; otherwise the line found is malformed and none before it is |
| LocationService.LoadStep | EC_Central/src/main/java/org/example/ec_central/service/LocationService.java:55-70 | after well-formed lines, a malformed line is the first one of the file, and a good line extends what was saved |
| LocationService.FirstMalformedPrefix | EC_Central/src/main/java/org/example/ec_central/service/LocationService.java:55-67 | a malformed line found in a prefix is the first one of the whole file |
| LocationService.FormatLines | EC_Central/src/main/java/org/example/ec_central/service/LocationService.java:55-67 | one written line per location |
| LocationService.FileRoundTrip | EC_Central/src/main/java/org/example/ec_central/service/LocationService.java:47-74 | a file written from well-formed locations has no malformed line and loads as exactly those locations |
| LocationService.AppendLine | EC_Central/src/main/java/org/example/ec_central/service/LocationService.java:55-70 | reading one more line extends the outcome of the lines before it |
| LocationService.LineAccepted | EC_Central/src/main/java/org/example/ec_central/service/LocationService.java:56-67 | the line written for a location is well-formed and saves that location |
| LocationService.OtherLinesSkipped | EC_Central/src/main/java/org/example/ec_central/service/LocationService.java:57 | lines that do not split into three pieces leave no trace |
| LocationService.LocationService.constructor | EC_Central/src/main/java/org/example/ec_central/service/LocationService.java:37-39 | the table starts empty |
| LocationService.LocationService.LoadLocationsFromFile | EC_Central/src/main/java/org/example/ec_central/service/LocationService.java:47-74 | the table is emptied first; a missing resource is a NullPointerException; otherwise every line is read in order and the accepted locations are saved, until a malformed number throws after the lines before it were saved |
| LocationService.LocationService.LoadLines | EC_Central/src/main/java/org/example/ec_central/service/LocationService.java:55-70 | the read loop saves exactly the accepted locations of the lines, or of the lines before the first malformed one, which throws |
| LocationService.LocationService.LoadNext | EC_Central/src/main/java/org/example/ec_central/service/LocationService.java:55-70 | one pass of the read loop either stops at a malformed line, which is the file's first, or extends the saved locations by that line |
| LocationService.LocationService.Store | EC_Central/src/main/java/org/example/ec_central/service/LocationService.java:56-67 | a malformed line throws with nothing saved; otherwise the line's location, if any, is appended |
| LocationService.LocationService.FindLocationByIdentifier | EC_Central/src/main/java/org/example/ec_central/service/LocationService.java:83-86 | a found location is in the table with that name; "Location not found: " plus the name is thrown exactly when no location has it; the only other error is IncorrectResultSize |
| LocationService.FindByIdentifier | EC_Central/src/main/java/org/example/ec_central/repository/LocationRepository.java:22 | `findByIdentifier`: nothing exactly when no location has the name, the one matching location, or IncorrectResultSize when several match |
| LocationService.LocationService.FindUnique | EC_Central/src/main/java/org/example/ec_central/service/LocationService.java:83-86 | with unique names every location is found by its own name |
| ClientHandler.TaxiIdOf | EC_Central/src/main/java/org/example/ec_central/service/ClientHandler.java:72 | `split("#")[1]` throws exactly when the frame has fewer than two pieces; the identifier holds no `#` |
| ClientHandler.FirstPieceNonEmpty | EC_Central/src/main/java/org/example/ec_central/service/ClientHandler.java:72 | appending to a string does not empty its first piece |
| ClientHandler.FixedFieldsFree | EC_Central/src/main/java/org/example/ec_central/service/MessageHandler.java:115-122 | AUTH and the shared secret hold neither `#` nor ETX |
| ClientHandler.AuthDataShape | EC_DE/src/main/java/org/example/ec_de/services/SocketService.java:108 | the taxi's authentication data is AUTH, `#`, the identifier, `#` and the shared secret |
| ClientHandler.AuthDataJoin | EC_DE/src/main/java/org/example/ec_de/services/SocketService.java:108 | the same data, as a join of the three fields |
| ClientHandler.AuthFrameAccepted | EC_Central/src/main/java/org/example/ec_central/service/MessageHandler.java:115-122 | the coordinator accepts the taxi's authentication frame whenever the identifier holds neither `#` nor ETX |
| MessageHandler.IsValidAuthentication | EC_Central/src/main/java/org/example/ec_central/service/MessageHandler.java:115-122 | `isValidAuthentication`: a valid frame whose data splits on `#` into AUTH, an identifier and the secret, with the index errors of `isValidMessage`; AuthFrameAccepted proves it accepts the taxi's own frame |
| ClientHandler.AuthFrameTaxiId | EC_Central/src/main/java/org/example/ec_central/service/ClientHandler.java:72 | the coordinator reads the taxi's own identifier out of its authentication frame when the identifier holds no `#` |
| ClientHandler.AuthFramePieces | EC_Central/src/main/java/org/example/ec_central/service/ClientHandler.java:72 | the taxi's authentication frame splits into STX and AUTH, the identifier, then the rest |
| ClientHandler.AuthFrameShape | EC_Central/src/main/java/org/example/ec_central/service/ClientHandler.java:72 | the authentication frame around its first two `#` |
| ClientHandler.SecondPiece | EC_Central/src/main/java/org/example/ec_central/service/ClientHandler.java:72 | Java's split keeps the second piece when a non-empty piece follows it |
| ClientHandler.AuthFrameWithHashRefused | EC_Central/src/main/java/org/example/ec_central/service/MessageHandler.java:115-122 | an identifier holding `#` makes the taxi's own authentication frame fail the coordinator's check |
| ClientHandler.AuthDataWithHashPieces | EC_Central/src/main/java/org/example/ec_central/service/MessageHandler.java:118-119 | such data splits into more than three pieces |
| ClientHandler.NackRefusedByTaxi | EC_DE/src/main/java/org/example/ec_de/services/SocketService.java:113-124 | the taxi reads the coordinator's NACK as a refusal, not an error |
| ClientHandler.RegisteredIffUnique | EC_Central/src/main/java/org/example/ec_central/service/ClientHandler.java:150-156 | a taxi counts as registered exactly when one row carries its identifier; a duplicated identifier refuses it |
| ClientHandler.IsTaxiRegistered | EC_Central/src/main/java/org/example/ec_central/service/ClientHandler.java:150-156 | `isTaxiRegistered`: the single-result lookup found a row; RegisteredIffUnique proves this holds exactly when one row carries the identifier |
| ClientHandler.Answer | EC_Central/src/main/java/org/example/ec_central/service/ClientHandler.java:175-183 | a request gets ACK when valid and NACK otherwise; the check may throw an index error |
| ClientHandler.Serve | EC_Central/src/main/java/org/example/ec_central/service/ClientHandler.java:171-188 | the request loop answers at most one reply per request; which reply, and why the loop ends, is stated by ServeReplies, ServeEndOfTransmission, ServeStreamClosed and ServeCrashed |
| ClientHandler.ServeReplies | EC_Central/src/main/java/org/example/ec_central/service/ClientHandler.java:171-188 | every request read is answered in order, and only the last one answered may contain EOT |
| ClientHandler.ServeEndOfTransmission | EC_Central/src/main/java/org/example/ec_central/service/ClientHandler.java:185-188 | the loop ends by EOT exactly when the last request answered contains it |
| ClientHandler.ServeStreamClosed | EC_Central/src/main/java/org/example/ec_central/service/ClientHandler.java:172 | the input runs out exactly when every request was answered and none contained EOT |
| ClientHandler.ServeCrashed | EC_Central/src/main/java/org/example/ec_central/service/ClientHandler.java:175 | the loop crashes only on an index error from checking the first unanswered request, after no EOT |
| ClientHandler.HandleTaxiRequests | EC_Central/src/main/java/org/example/ec_central/service/ClientHandler.java:168-190 | the request loop writes exactly the replies of `Serve` and ends as it says |
| ClientHandler.ServeFrom | EC_Central/src/main/java/org/example/ec_central/service/ClientHandler.java:171-188 | one pass of the request loop from the i-th request |
| ClientHandler.ClientHandler.constructor | EC_Central/src/main/java/org/example/ec_central/service/ClientHandler.java:52-58 | no taxi is connected, no token is held and no topic is requested |
| ClientHandler.ClientHandler.HandleTaxiConnection | EC_Central/src/main/java/org/example/ec_central/service/ClientHandler.java:65-115 | missing input is a lost connection; a throwing or false authentication check is an escape or a NACK; a missing second piece escapes; an unregistered taxi gets a NACK; a failed key exchange loses the connection; every case that does not start leaves the tables alone; a started session writes the key, the token and the replies, requests the taxi's topic, and keeps the taxi's entries unless it ended with EOT |
| ClientHandler.ClientHandler.RunSession | EC_Central/src/main/java/org/example/ec_central/service/ClientHandler.java:94-106 | the entries are added and the topic requested before the loop; EOT removes both entries; an IOException or a crash leaves them |
| Dispatch.ParseServiceRequest | EC_Central/src/main/java/org/example/ec_central/service/KafkaService.java:115-117 | the request splits on `#` into the client and the destination, or throws an index error with fewer than two pieces |
| Dispatch.ServiceRequestRoundTrip | EC_Central/src/main/java/org/example/ec_central/service/KafkaService.java:115-117 | a request built from a `#`-free client identifier and a non-empty `#`-free destination parses back into those two |
| Dispatch.ExtractTaxiIdentifier | EC_Central/src/main/java/org/example/ec_central/service/KafkaService.java:103-105 | the second space-separated word, which holds no space; fewer words throw |
| Dispatch.ExtractsSecondWord | EC_Central/src/main/java/org/example/ec_central/service/KafkaService.java:103-105 | in `word identifier ...` the identifier is extracted, whatever follows |
| Dispatch.ArrivalNamesTaxi | EC_Central/src/main/java/org/example/ec_central/service/KafkaService.java:89-90 | every message containing "has arrived at destination" splits on spaces into at least two words, so `extractTaxiIdentifier` never throws on it |
| Dispatch.FirstTwoWords | EC_Central/src/main/java/org/example/ec_central/service/KafkaService.java:103-105 | such a message's first two pieces are the word and the identifier |
| Dispatch.SavedCustomer | EC_Central/src/main/java/org/example/ec_central/service/KafkaService.java:122 | the customer `save` keeps keys unique and stores the customer |
| Dispatch.SavedCustomerAt | EC_Central/src/main/java/org/example/ec_central/service/KafkaService.java:122 | saving a customer read from the table overwrites exactly that row |
| Dispatch.SavedAssignment | EC_Central/src/main/java/org/example/ec_central/service/KafkaService.java:219 | saving an assignment keeps every row and adds the pair at most once |
| Dispatch.SecondRideUnresolvable | EC_Central/src/main/java/org/example/ec_central/service/KafkaService.java:250 | assignments are never deleted, so a taxi's second customer leaves two rows and every later lookup for the taxi fails with IncorrectResultSize |
| Dispatch.FirstOfAvailable | EC_Central/src/main/java/org/example/ec_central/service/KafkaService.java:193-197 | scanning the available taxis for the first connected one finds the first taxi of the whole table that is both available and connected |
| Dispatch.ScanKeepsHead | EC_Central/src/main/java/org/example/ec_central/service/KafkaService.java:193-197 | an available head taxi is looked at first on both sides |
| Dispatch.ScanSkipsHead | EC_Central/src/main/java/org/example/ec_central/service/KafkaService.java:193-197 | an unavailable head taxi is skipped on both sides |
| Dispatch.ChooseTaxi | EC_Central/src/main/java/org/example/ec_central/service/KafkaService.java:193-201 | a chosen taxi is a row of the table |
| Dispatch.ChoiceMeaning | EC_Central/src/main/java/org/example/ec_central/service/KafkaService.java:190-226 | the choice is the first available, connected taxi with a location named as the destination; nothing exactly when no taxi qualifies or no location has the name; the only error is IncorrectResultSize |
| Dispatch.Transitioned | EC_Central/src/main/java/org/example/ec_central/service/KafkaService.java:262-299 | the saved row keeps the taxi's identity and position; PICKUP moves on to EN_ROUTE_TO_DESTINATION and DESTINATION_REACHED to RETURNING_TO_BASE; RETURNING_TO_BASE at (1, 1) frees the taxi, makes it IDLE and clears its destination |
| Dispatch.RideCustomer | EC_Central/src/main/java/org/example/ec_central/service/KafkaService.java:250-253 | a found customer is in the table and assigned to the taxi; nothing exactly when the taxi has no assignment; errors are IncorrectResultSize or NoSuchElement |
| Dispatch.FindCustomer | EC_Central/src/main/java/org/example/ec_central/repository/CustomerRepository.java:21 | `getCustomerByIdentifier`: nothing exactly when no customer has the identifier, the one matching customer, or IncorrectResultSize when several match |
| Dispatch.FindAssignment | EC_Central/src/main/java/org/example/ec_central/repository/CustomerTaxiAssignmentRepository.java:24 | `findByIdTaxiId`: nothing exactly when the taxi has no assignment, its one assignment, or IncorrectResultSize when it has several (see SecondRideUnresolvable) |
| Dispatch.OutsideAppend | EC_Central/src/main/java/org/example/ec_central/service/KafkaService.java:321-371 | a concatenation has a marker outside the grid exactly when one of its parts has |
| Dispatch.ScanEligible | EC_Central/src/main/java/org/example/ec_central/service/KafkaService.java:195-197 | the scan stops at the first available taxi with a connected socket, or runs through the list when none has one |
| Dispatch.KafkaService.constructor | EC_Central/src/main/java/org/example/ec_central/service/KafkaService.java:53-56 | the service starts with a new empty grid, no client topic and nothing sent |
| Dispatch.KafkaService.CreateClientTopic | EC_Central/src/main/java/org/example/ec_central/service/KafkaService.java:149-157 | a client's topic is created and recorded the first time only; a known client changes nothing |
| Dispatch.KafkaService.AssignTaxiToClient | EC_Central/src/main/java/org/example/ec_central/service/KafkaService.java:190-226 | the chosen taxi alone becomes unavailable, ASSIGNED and headed for the customer; its directive is sent and the assignment saved, and true is returned; no choice returns false with nothing changed; a duplicated location name throws |
| Dispatch.KafkaService.FindEligibleTaxi | EC_Central/src/main/java/org/example/ec_central/service/KafkaService.java:193-197 | the scan yields an available taxi with a connected socket, the first such row of the table, or nothing exactly when there is none |
| Dispatch.KafkaService.AssignTaxi | EC_Central/src/main/java/org/example/ec_central/service/KafkaService.java:198-220 | an unknown destination returns false and changes nothing; a known one dispatches the taxi |
| Dispatch.KafkaService.Dispatch | EC_Central/src/main/java/org/example/ec_central/service/KafkaService.java:203-219 | the taxi's row is saved assigned, the directive carries the taxi's position and state, the customer's position and the destination, and the assignment is recorded |
| Dispatch.KafkaService.ListenTaxiStatusUpdates | EC_Central/src/main/java/org/example/ec_central/service/KafkaService.java:86-95 | an arrival message frees the taxi named by its second word, which it always has; other messages or unknown names change nothing |
| Dispatch.KafkaService.ListenTaxiDirections | EC_Central/src/main/java/org/example/ec_central/service/KafkaService.java:234-304 | a report naming no taxi, or several, throws with nothing changed; otherwise the row takes the report and its transition; the customer, outbox and grid cell change as the state says; the outcome is the state's |
| Dispatch.KafkaService.StoreReport | EC_Central/src/main/java/org/example/ec_central/service/KafkaService.java:240-244 | the report is stored on the one row with its identifier, and the lookup then finds that row updated |
| Dispatch.KafkaService.React | EC_Central/src/main/java/org/example/ec_central/service/KafkaService.java:246-300 | the reaction to each state, as in `ListenTaxiDirections`, once the row holds the report |
| Dispatch.KafkaService.ReactOnTable | EC_Central/src/main/java/org/example/ec_central/service/KafkaService.java:262-299 | RETURNING_TO_BASE, DESTINATION_REACHED and PICKUP change only the taxi's row and the outbox; other states are ignored |
| Dispatch.KafkaService.SaveTaxi | EC_Central/src/main/java/org/example/ec_central/service/KafkaService.java:268 | saving a row read from the table overwrites exactly that row |
| Dispatch.KafkaService.OnStopped | EC_Central/src/main/java/org/example/ec_central/service/KafkaService.java:247 | the cell at the position keeps its text and turns red; outside the grid the read throws |
| Dispatch.KafkaService.OnEnRouteToDestination | EC_Central/src/main/java/org/example/ec_central/service/KafkaService.java:249-261 | the ride's customer takes the taxi's position, and the cell shows the taxi and the destination in green; without an assignment nothing happens; lookup errors escape |
| Dispatch.KafkaService.OnDestinationReached | EC_Central/src/main/java/org/example/ec_central/service/KafkaService.java:272-295 | the taxi is saved RETURNING_TO_BASE and sent the return directive; the customer, if found, is sent END; lookup errors escape after that |
| Dispatch.KafkaService.ListenServiceRequest | EC_Central/src/main/java/org/example/ec_central/service/KafkaService.java:113-142 | a request without a second piece, or for an unknown customer, throws with nothing changed; otherwise the customer is saved REQUESTING with the destination, its topic is created if new, the assignment runs, the customer becomes WAITING_FOR_TAXI when a taxi is assigned, and the answer goes to the customer's topic unless the assignment threw |
| Dispatch.KafkaService.ServeRequest | EC_Central/src/main/java/org/example/ec_central/service/KafkaService.java:120-141 | the same, once the customer is found |
| Dispatch.KafkaService.Register | EC_Central/src/main/java/org/example/ec_central/service/KafkaService.java:120-124 | the customer's row is saved REQUESTING and its topic created only if new |
| Dispatch.KafkaService.AssignAndReply | EC_Central/src/main/java/org/example/ec_central/service/KafkaService.java:126-141 | an assigned taxi makes the customer WAITING_FOR_TAXI; the answer is "OK: Taxi asignado" or "KO: Taxis no disponible" |
| Dispatch.KafkaService.SaveCustomer | EC_Central/src/main/java/org/example/ec_central/service/KafkaService.java:133 | saving a customer read from the table overwrites exactly that row |
| Dispatch.KafkaService.PopulateMap | EC_Central/src/main/java/org/example/ec_central/service/KafkaService.java:321-371 | the snapshot succeeds exactly when nothing stands outside the grid; every cell then lists, in drawing order, what stands there |
| TaxiDriver.StoppedBeforeSome | EC_DE/src/main/java/org/example/ec_de/services/KafkaService.java:81-94 | the sensor stopped the taxi before one of a run of moves exactly when one of those move numbers is in its set |
| TaxiDriver.StoppedBeforeLater | EC_DE/src/main/java/org/example/ec_de/services/KafkaService.java:81-94 | once stopped before a move, the taxi is stopped before every later move |
| TaxiDriver.LegMessages | EC_DE/src/main/java/org/example/ec_de/services/KafkaService.java:108-127 | a leg reports once per position passed before arrival |
| TaxiDriver.LegMessageAt | EC_DE/src/main/java/org/example/ec_de/services/KafkaService.java:116-123 | the i-th report of a leg is the i-th position, in the leg's phase unless the sensor stopped the taxi by then |
| TaxiDriver.LegReports | EC_DE/src/main/java/org/example/ec_de/services/KafkaService.java:116-123 | every report of a leg carries the taxi's identifier and says either the leg's phase or STOPPED |
| TaxiDriver.ReportedNext | EC_DE/src/main/java/org/example/ec_de/services/KafkaService.java:123 | publishing the next report extends the log by one more report of the leg |
| TaxiDriver.Tagged | EC_DE/src/main/java/org/example/ec_de/services/KafkaService.java:47-52 | appended reports that carry the identifier keep the log's tail tagged |
| TaxiDriver.LogOfFour | EC_DE/src/main/java/org/example/ec_de/services/KafkaService.java:106-162 | the ride's four parts are published in order |
| TaxiDriver.StoppedPersists | EC_DE/src/main/java/org/example/ec_de/services/KafkaService.java:81-94 | once a report of a leg says STOPPED, every later report of that leg does too |
| TaxiDriver.ReturnReports | EC_DE/src/main/java/org/example/ec_de/services/KafkaService.java:79-104 | a return to base never reports PICKUP or DESTINATION_REACHED, and it ends with one RETURNING_TO_BASE report at (0, 0) |
| TaxiDriver.RideReports | EC_DE/src/main/java/org/example/ec_de/services/KafkaService.java:106-162 | a ride reports PICKUP once, at the customer, and DESTINATION_REACHED once, last, at the destination; before PICKUP only EN_ROUTE_TO_PICKUP or STOPPED, between them only EN_ROUTE_TO_DESTINATION or STOPPED |
| TaxiDriver.PathAdvance | EC_DE/src/main/java/org/example/ec_de/services/KafkaService.java:82-87 | one more move walks one step further along the leg's path |
| TaxiDriver.KafkaService.constructor | EC_DE/src/main/java/org/example/ec_de/services/KafkaService.java:34-40 | the taxi service starts with a new finder at (0, 0) and nothing published |
| TaxiDriver.KafkaService.Advance | EC_DE/src/main/java/org/example/ec_de/services/KafkaService.java:109-123 | one pass of a loop: the sensor may stop the taxi, the finder moves once, and arriving clears `stop` unreported while any other move is reported in the current phase |
| TaxiDriver.KafkaService.DriveLeg | EC_DE/src/main/java/org/example/ec_de/services/KafkaService.java:108-127 | a stepping loop ends on the target with `stop` cleared, after one move more than the positions reported, having published exactly the leg's reports |
| TaxiDriver.KafkaService.ListenToClientResponses | EC_DE/src/main/java/org/example/ec_de/services/KafkaService.java:70-162 | the taxi is placed at the directive's position; a RETURNING_TO_BASE directive ends at (0, 0) having published the return reports; any other ends at the destination, DESTINATION_REACHED, having published the ride reports; every report carries the taxi's identifier |
| TaxiDriver.KafkaService.ReturnToBase | EC_DE/src/main/java/org/example/ec_de/services/KafkaService.java:79-104 | the loop toward (0, 0), then the report at the final position |
| TaxiDriver.KafkaService.Ride | EC_DE/src/main/java/org/example/ec_de/services/KafkaService.java:106-162 | the pickup loop, PICKUP, the destination loop and DESTINATION_REACHED, ending at the destination |

## Left out

- **JSON mapping.** `MappingUtils.map` and `mapFromString` are left out; directives and reports are datatypes on the bus.
- **Logging, sleeps and the snapshot thread.** The once-a-second broadcast of `populateMap` (`runThread`) is not modelled; `PopulateMap` models one snapshot.
- **`publishTaxiAssignedEvent`.** It is not called by any modelled operation.
- **`isAck`.** It is not called by any modelled operation.
- **Encryption and the key exchange.**
  - The RSA key exchange is the flag `keyAccepted`.
  - The coordinator's key reply is the constant reply `CentralPublicKey`.
  - `buildAckWithToken` is the reply `TokenAck(token)`.
  - The random UUID token is a parameter.
- **The Kafka admin** is the list of topic names requested or created. Topic partitions are not modelled.
- **Write failures.** A failure of `writeUTF` on a socket is not modelled; only reads fail.
- **The sensor thread.** Its concurrent writes of STOPPED into the shared path finder are the set `sensor` of move numbers before which STOPPED was written. Other interleavings, and the sensor clearing STOPPED, are not modelled.
- **Null identifiers.** Identifiers of taxis, customers and locations are never null. A registration whose request has no `id` would save a taxi with a null identifier. The coordinator's NullPointerExceptions on such a row are not modelled: in the service method `findTaxiByIdentifier` (reached from `listenTaxiStatusUpdates`), in the connection lookup of `assignTaxiToClient`, and in `populateMap`.
- **`connectToCentral`, `keepAlive` and `closeConnection`.** They become the `canConnect` flag and the `connected` field.
- **Repositories.**
  - Tables are kept in memory in `findAll` order.
  - Transactions and `deleteAll`'s effect on generated identifiers are not modelled: a NumberFormatException that escapes the load leaves the table as the model describes.
- **Database constraints.** The registry keeps its taxis in a map by identifier, which holds because `registerTaxi` refuses duplicates. A unique constraint on the registry table is not modelled.
- **Java.ParseInt** accepts an optional sign followed by ASCII digits only. It does not accept the other Unicode digits that `Integer.parseInt` also takes.
- **ClientHandler.AuthFrameTaxiId** is proved for the taxi's own frame only. No lemma states that every frame passing `isValidAuthentication` has a second `#` piece.
- **CityGrid.CityMap.GetPosition** models the array index error as a `Throw`. A negative or too-large coordinate gets the same `IndexOutOfBounds`.
- **Integer width.** Coordinates are unbounded integers: the moves of `getNextPosition` never reach the 32-bit limits in a 20 by 20 city.
