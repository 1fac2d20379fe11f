# AstroMount verification

A Dafny model of the parts of AstroMount whose correctness is hardest to see from the code: the SOFA
astrometry context and the vector kernels that use it, the coordinate conversions of the ASCOM driver,
the camera capture and connection protocol of the INDI bridge, and the state logic of the two mount
drivers. `dafny verify dfyconfig.toml` checks the whole project.

## How the code is modelled

**Arithmetic.** Angles, vectors and times are exact reals. The C and .NET mathematics library is a
parameter, the record `MathLibrary.Libm` of function values; `Libm.Valid` lists the textbook laws that are
relied on, each as a named predicate: the unit circle, the addition law, periodicity, the sign of the
cosine, square roots, the polar-angle law of `atan2` on the closed interval [-pi, pi], the sine of a
quarter turn, and the defining laws of `asin`, `tan` and `atan`. Every lemma that needs them says
`requires m.Valid()`. `fmod` and the C# remainder are `Angles.FMod`, truncating towards zero, and "equal modulo
p" is `MathLibrary.Congruent`.

**Arrays and structures.** The rotation matrices are `array2` objects rotated in place by `Rotations.Ir`,
`Rx`, `Ry`, `Rz`; `Aberration.Ab` keeps its two loops and its output array; `Astrometry.Astrom` is the context
structure with its fields updated in place by `Aper`, `Apio`, `Apcs` and `Apco`, each with a frame that
names the fields it may write.

**Threads.** The capture thread, the connection attempts, the exposure workers and the poll callbacks are
classes whose methods are broken at the points where another thread can run. There the environment does
anything it can do (deliver images, abort, lose the server, let time pass), given as an arbitrary
argument. What happened is recorded in a ghost log; a local rule `Allowed` says when a thread may take
each step; the classes are proved to produce only such logs, and the laws are proved of all of them.

| files | what they model |
|---|---|
| RealArith, MathLibrary, Angles, Vectors | real arithmetic, the mathematics library, normalisation of angles, vector algebra |
| Rotations, CelestialPole | in-place rotations, the celestial-to-intermediate matrix |
| Astrometry, ContextLaws | the context structure and its four setters; the fast update against the full rebuild |
| Aberration, AberrationLaws, Deflection, StarPipeline | the star chain from catalogue position to intermediate place |
| Observed, ObservedInverse | observed place and back, the consumers of the context |
| Horizon, Precession, MountMapping, MountConversion | horizon, precession and mount-axis conversions of the drivers |
| Options, Strings, ConnectionStrings | the connection string of the ASCOM driver |
| CameraCapture, CaptureLaws | one exposure against callbacks and aborts |
| CameraConnection, ConnectionLaws | selecting, connecting and reconnecting a camera |
| ExposureWorker, ExposureLaws | the exposure thread of the INDI camera driver |
| ErrorRecovery | the ten-second limit on automatic recovery |

## Where the code and its comments differ

- `NormalizeHours` folds into [-range/2, range/2], and an equatorial hour angle is folded with range 12, so the
  right ascension is right modulo 12 h and modulo 24 h only near the meridian (`EquatorialMountRa`).
- `AltAzMountToRaDec` has the opposite sign in one argument of `atan2` and returns 12 h minus the hour angle
  (`AltAzHourAngleMirrored`, `AltAzRoundTrip`).
- `iauAnpm` returns +pi where its header promises a value below it (`AnpmDocumentedRange`).
- `iauLdsun` promises a unit vector; it is one only on the line through the Sun (`DeflectedLength`).
- A connection string never prints that TLS is off, so reading it back cannot switch TLS off, and it does not
  escape the host (`PrintedReadBack`, `RecoveredExactly`, `OwnStateExactly`).
- An on-sky position of exactly RA 0, Dec 0 is taken for a missing one (`OriginTakenForMissing`).
- An abort that arrives before the flag is cleared is lost (`AbortHonoured`, `EarlyAbortLost`), and an image of
  an earlier exposure can complete a capture (`NoWaitExactly`, `StaleImageAccepted`).
- Deselecting a camera keeps it selected for the reconnect loop, a failed attempt is not retried, and the
  connection flag is set over a loss of the server during the attempt (`DeselectedComesBack`,
  `FailedAttemptNotRetried`, `ConfirmedTruly`, `LossOverwritten`).
- `StartExposure` clears the abort flag before it joins the previous worker, which may lose an abort, and sets
  the running flag that the joined worker then clears (`AbortLost`, `RunningFlagAtStart`).
- The INDI driver stamps only successful recoveries, so failed ones are not limited (`RestExactly`,
  `FailuresUnlimited`, `AttemptsAtOneInstant`).
- Deep inside the Sun the star chain can divide by zero (`ChainComputable`, `CancellationOccurs`).

## Model

| member | source | states |
|---|---|---|
| `Astrometry.Astrom.Apio` | sofa/apio.c:136-172 | In-place build and decomposition leave exactly the local frame of the site at theta, and write nothing else of the context |
| `Astrometry.Astrom.Aper` | sofa/aper.c:104 | Only the Earth rotation angle changes, to theta plus the stored adjusted longitude |
| `Astrometry.Astrom.Apcs` | sofa/apcs.c:149-176 | The three loops leave the barycentric state of the observer and do not touch the local frame |
| `Astrometry.Astrom.Apco` | sofa/apco.c:178-226 | The local frame of iauApio with diurab zero, and the barycentric state of iauApcs for the station rotated into the GCRS with bpn the celestial matrix, field by field |
| `Astrometry.Astrom.SolveLocalFrame` | sofa/apio.c:143-158 | The angles solved from any rotation matrix; all other fields of the context stay |
| `Astrometry.FormLocalMatrix` | sofa/apio.c:136-141 | The five in-place calls multiply to Rz(elong) Rx(-yp) Ry(-xp) Rz(theta + sp) |
| `Astrometry.Pom00` | sofa/pom00.c:60-71 | The polar-motion matrix built in place is the product of its three rotations |
| `Astrometry.Pvtob` | sofa/pvtob.c:76-109 | The closed forms are a rotation about the pole and the vector product with the rotation rate |
| `Rotations.Ir` | sofa/ir.c:25-36 | The array becomes the identity |
| `Rotations.Rx` | sofa/rx.c:42-62 | In place, the old matrix is multiplied on the left by the rotation about x |
| `Rotations.Ry` | sofa/ry.c:42-62 | In place, the old matrix is multiplied on the left by the rotation about y |
| `Rotations.Rz` | sofa/rz.c:42-62 | In place, the old matrix is multiplied on the left by the rotation about z |
| `Rotations.PnRecomposes` | sofa/pn.c:42-65 | Modulus times direction is the vector; the direction is a unit vector unless the vector is null |
| `Rotations.C2ixys` | sofa/c2ixys.c:61-74 | The in-place sequence forms the celestial-to-intermediate matrix, for poles inside and on the unit circle |
| `CelestialPole.PoleIsThirdRow` | sofa/c2ixys.c:61-74 | That matrix is a rotation whose third row is the requested pole (x, y, sqrt(1 - x^2 - y^2)) |
| `ContextLaws.LocalMatrixIsRotation` | sofa/apio.c:136-141 | The built matrix is orthonormal and right-handed for every site and angle |
| `ContextLaws.EarthTurns` | sofa/apio.c:136-141 | Changing theta multiplies the matrix on the right by a rotation about the pole |
| `ContextLaws.SolvedAngles` | sofa/apio.c:143-155 | The stored angles encode the first row and the last column of any rotation, degenerate ones too |
| `ContextLaws.AnglesRebuildMatrix` | sofa/apio.c:136-155 | Rx(-ypl) Ry(-xpl) Rz(eral) of the stored angles is the original matrix exactly when the first row has a horizontal part (or in one degenerate case) |
| `ContextLaws.RegularSite` | sofa/apio.c:136-146 | The horizontal part vanishes for a longitude and polar motion of tilt +-1 only, whatever the time |
| `ContextLaws.DiurabIndependentOfTheta` | sofa/apio.c:164-168 | The magnitude of diurnal aberration is the same at every Earth rotation angle |
| `ContextLaws.TurnedAngles` | sofa/aper.c:104 | Turning the Earth keeps xpl and ypl and advances the rotation angle by the same amount modulo 2 pi |
| `ContextLaws.AperRefinesApio` | sofa/aper.c:60-104 | iauApio at theta0 then iauAper to theta1 equals iauApio at theta1, angles modulo 2 pi, exactly when the site is regular or the angles agree |
| `ContextLaws.SetUpThreeWays` | sofa/apco.c:178-226 | iauApio and iauApcs leave the same context in either order, and iauApco leaves it too but for diurab zero and bpn the celestial matrix |
| `Observed.LocalDirectionIsRecomposed` | sofa/atioq.c:120-133 | Earth rotation and polar motion written out by hand apply the matrix of the three stored angles |
| `Observed.AtioqAppliesLocalMatrix` | sofa/atioq.c:120-133 | With the context of iauApio at a regular site they apply the very matrix iauApio formed and discarded |
| `Observed.AtioqSameFrame` | sofa/atioq.c:110-190 | All five observed coordinates are the same for contexts that differ by whole turns |
| `ObservedInverse.AtoiqSameFrame` | sofa/atoiq.c:97-201 | Likewise for the inverse, for every coordinate type |
| `ObservedInverse.FastUpdateObservesTheSame` | sofa/aper.c:60-104 | At a regular site observing with the quick update gives what the full rebuild gives, both ways, for all directions |
| `ObservedInverse.AtoiqUndoesAtioq` | sofa/atoiq.c:97-201 | In vacuum the inverse returns the direction of every intermediate place, for each coordinate type |
| `Aberration.VelocityInMetresPerSecond` | sofa/apcs.c:152-171 | The stored velocity times c is the Earth's velocity plus the station's, in SI units; the stored position differs from the Earth's by the station vector |
| `Aberration.ObserverStateConsistent` | sofa/apcs.c:160-173 | em times eh recomposes the heliocentric position, eh is a unit vector away from the Sun, and bm1^2 + v^2 = 1 below light speed |
| `Aberration.Ab` | sofa/ab.c:68-80 | The two loops leave the normalised direction of Expr. (7.40) in the output array, even when it is the input array |
| `AberrationLaws.RawLength` | sofa/ab.c:68-76 | Without the potential term the vector before normalisation has squared length (1 + pdv)^2 |
| `AberrationLaws.AberrationWithoutPotential` | sofa/ab.c:68-80 | Its length is 1 + pdv > 0, the result is a unit vector, and its velocity component is (pdv + v^2)/(1 + pdv), never below pdv |
| `AberrationLaws.AberrationInverse` | sofa/ab.c:68-80 | Applying the aberration again with -v returns the natural direction exactly |
| `AberrationLaws.RawVanishesExactly` | sofa/ab.c:68-76 | For directions at least of unit length: exactly when the vector that is divided vanishes |
| `AberrationLaws.RawNeverVanishes` | sofa/ab.c:72-79 | It does not vanish while the potential term times the excess length is at most 2 |
| `AberrationLaws.RawLengthWithPotential` | sofa/ab.c:68-76 | The squared length with the potential term, which never falls below (1 + pdv)^2 |
| `AberrationLaws.ProperDirection` | sofa/ab.c:68-80 | For every unit direction, subluminal observer and distance the division is safe and the result is a unit vector between direction and velocity |
| `Deflection.DeflectedLength` | sofa/ldsun.c:47-57 | The deflected vector has squared length 1 + w^2 (1 - (p.e)^2), so it is a unit vector only on the line through the Sun |
| `Deflection.DeflectedExcess` | sofa/ldsun.c:51-57 | The excess of the squared length is bounded by the limiter and the distance |
| `Deflection.DepartureNegligible` | sofa/ld.c:50-51 | The departure from unit magnitude is below 1e-9 from 1 au on, and harmless to the division in iauAb outside the Sun |
| `StarPipeline.SphericalRoundTrip` | sofa/c2s.c:37-50 | The spherical coordinates of every unit vector recompose it, poles included |
| `StarPipeline.ChainComputable` | sofa/atciq.c:83-87 | From any unit direction the division in the chain is safe except when motion and potential term cancel along the line of sight, which cannot happen outside the Sun |
| `StarPipeline.CancellationOccurs` | sofa/ab.c:68-80 | There are a subluminal observer inside the Sun and a unit direction for which the divided vector vanishes |
| `StarPipeline.ChainDirections` | sofa/atciq.c:83-90 | Wherever the division is safe, the proper and the intermediate direction are unit vectors |
| `StarPipeline.AtciqSound` | sofa/atciq.c:80-94 | For every star: exactly when the chain is computable, a null moved vector included, and then ri in [0, 2 pi), di in [-pi/2, pi/2], and together they are the spherical form of the intermediate direction |
| `StarPipeline.AtciqzAgrees` | sofa/atciqz.c:77-96 | A star without parallax and proper motion gets the same place from both functions, whatever its radial velocity |
| `StarPipeline.ContextFeedsPipeline` | sofa/apcs.c:149-176 | The context left by iauApcs is fit for the star chain exactly when the observer is slower than light and not at the Sun's centre |
| `Angles.FModProperties` | sofa/anp.c:33 | The truncating remainder is congruent, smaller than the period, and has the sign of the dividend |
| `Angles.AnpRepresents` | sofa/anp.c:33-36 | The only representative of the angle in [0, 2 pi) |
| `Angles.AnpCanonical` | sofa/anp.c:33-36 | Two angles have the same normal form exactly when they differ by whole turns |
| `Angles.AnpmRepresents` | sofa/anpm.c:33-36 | A representative of the angle in [-pi, pi] |
| `Angles.AnpmDocumentedRange` | sofa/anpm.c:10-36 | The promised range [-pi, pi) is met exactly when the remainder is not -pi |
| `Angles.NormalisationsIdempotent` | sofa/anpm.c:33-36 | iauAnp is idempotent; iauAnpm is so off +-pi, which it swaps; and iauAnp does not see iauAnpm |
| `Horizon.SwingInvolution` | sofa/ae2hd.c:79-81 | The vector map is its own inverse and preserves scalar products |
| `Horizon.Ae2hdDirection` | sofa/ae2hd.c:79-86 | The returned hour angle and declination are the spherical form of the mapped direction, at the pole too |
| `Horizon.HorizontalDirection` | ascom/ConversionHelper.cs:101-110 | The altitude and azimuth formulas give the same vector map, and the clamp never fires |
| `Horizon.Ae2hdUndoesHorizontal` | ascom/ConversionHelper.cs:93-113 | iauAe2hd recovers hour angle and declination from the driver's altitude and azimuth, for all latitudes and abs(Dec) < 90 |
| `Horizon.AltAzHourAngleMirrored` | ascom/ConversionHelper.cs:158-169 | The driver's declination is that of iauAe2hd; its hour angle is pi minus it, right exactly when the x component is zero |
| `Precession.ClampNeverFires` | ascom/ConversionHelper.cs:200-205 | The sine of the declination is always in [-1, 1] |
| `Precession.PrecessIsRotation` | ascom/ConversionHelper.cs:196-205 | The formulas rotate every direction by Rz(-z) Ry(theta) Rz(-zeta) |
| `Precession.MatrixIsRotation` | ascom/ConversionHelper.cs:196-205 | That matrix is a rotation for all three angles |
| `Precession.SwappedAnglesTranspose` | ascom/ConversionHelper.cs:82-83 | Swapping and negating the angles transposes the matrix |
| `Precession.PrecessMovesDirection` | ascom/ConversionHelper.cs:186-211 | In hours and degrees: the named direction is rotated, RA in [0, 24), Dec in [-90, 90] |
| `Precession.PrecessPreservesSeparation` | ascom/ConversionHelper.cs:186-211 | The angle between any two positions is preserved |
| `Precession.DirectionRoundTrip` | ascom/ConversionHelper.cs:69-84 | There and back again every direction returns, the poles included |
| `Precession.PrecessionRoundTrip` | ascom/ConversionHelper.cs:69-84 | JNowToJ2000 undoes J2000ToJNow: Dec exactly, RA modulo 24 h in [0, 24) |
| `MountMapping.ToIndiRaDec` | indi/IndiPropertyMapper.cpp:115-154 | The INDI mapper returns for every state and sidereal time what the ASCOM driver's GetCurrentRaDec returns |
| `MountMapping.FallbackPosition` | ascom/AstroMountTelescope.cs:1005-1018 | From raw axes: RA in [0, 24) congruent to LST - axis1/15, Dec in (-180, 180] for axis2 in [0, 360) |
| `MountMapping.WholeTurnsIgnored` | ascom/AstroMountTelescope.cs:1005-1018 | Whole turns of axis 1 do not change the position |
| `MountMapping.OriginTakenForMissing` | ascom/AstroMountTelescope.cs:994-1003 | A sky position of (0, 0) is reported as (0, 0) exactly when the raw axes agree |
| `MountMapping.NormalizeHours` | ascom/ConversionHelper.cs:237-248 | A representative of the hours in the closed half range, and the hours themselves for range 0 |
| `MountMapping.NormalizedProperties` | ascom/ConversionHelper.cs:234-248 | The other range its comment offers, [0, range), is met exactly for certain remainders |
| `MountMapping.EquatorialMountRa` | ascom/ConversionHelper.cs:122-144 | RA is right modulo 12 h always, and modulo 24 h exactly within six hours of the meridian |
| `MountMapping.LowerMeridianWrong` | ascom/ConversionHelper.cs:128-135 | At an hour angle of 12 h the reported RA is wrong for every sidereal time |
| `MountConversion.ConversionHelper.constructor` | ascom/ConversionHelper.cs:27-30 | The observer's latitude |
| `MountConversion.ConversionHelper.SetLatitude` | ascom/ConversionHelper.cs:288-291 | Later conversions use the new latitude |
| `MountConversion.ConversionHelper.MountPositionToRaDec` | ascom/ConversionHelper.cs:38-63 | The conversion of the mount's geometry at the latitude last set; casual mounts count as equatorial, unknown ones give (0, 0) |
| `MountConversion.MirroredHourAngle` | ascom/ConversionHelper.cs:150-181 | At the altitude and azimuth of a position the driver finds its declination and 12 h minus its hour angle |
| `MountConversion.AltAzRoundTrip` | ascom/ConversionHelper.cs:150-181 | RA comes back as 2 LST - 12 h - RA, right modulo 24 h exactly at hour angles 6 h and 18 h |
| `Strings.SplitJoined` | ascom/AstroMountTelescope.cs:137 | The pieces of two texts joined by the separator are the pieces of both |
| `Strings.SplitPieces` | ascom/AstroMountTelescope.cs:137 | No piece holds the separator |
| `Strings.SplitTwoAt` | ascom/AstroMountTelescope.cs:139 | The first '=' separates key and value, whatever the value holds |
| `Strings.TrimIdempotent` | ascom/AstroMountTelescope.cs:141-142 | Trimmed text has nothing left to trim and no new characters |
| `Strings.TryParseIntText` | ascom/AstroMountTelescope.cs:144 | Every 32-bit integer is parsed back from its decimal text |
| `ConnectionStrings.AstroMountTelescope.ApplyConnectionString` | ascom/AstroMountTelescope.cs:134-147 | The loop applies the parts in order; null and blank strings change nothing |
| `ConnectionStrings.BlankIsIdle` | ascom/AstroMountTelescope.cs:136 | The early return on a blank string is only a short cut |
| `ConnectionStrings.JoinedStrings` | ascom/AstroMountTelescope.cs:134-147 | Applying s1 + ";" + s2 is applying s1 and then s2, for all strings |
| `ConnectionStrings.LastValueWins` | ascom/AstroMountTelescope.cs:131-147 | Each field ends as the last valid value of its key, or keeps its value |
| `ConnectionStrings.PrintedReadBack` | ascom/AstroMountTelescope.cs:85-93 | A printed endpoint is read back from its own state, and from another state exactly when TLS need not be switched off |
| `ConnectionStrings.RecoveredExactly` | ascom/AstroMountTelescope.cs:85-93 | From a state with another host it is recovered exactly when the host is trimmed, nonempty and without ';' and TLS need not be switched off |
| `ConnectionStrings.OwnStateExactly` | ascom/AstroMountTelescope.cs:85-93 | From its own state an endpoint is recovered exactly when its host is trimmed, nonempty and without ';', or no piece of it is read as a host, and no piece of it switches TLS on against the state |
| `CameraCapture.CaptureClient.HandleBlob` | camera/indi_camera_client.cpp:316-335 | A blob with data becomes the complete result and ends the wait; one without data changes nothing |
| `CameraCapture.CaptureClient.AbortCapture` | camera/indi_camera_client.cpp:466-477 | The abort flag is set, then the abort command is sent; no other field changes |
| `CameraCapture.CaptureClient.Gap` | camera/indi_camera_client.cpp:394-463 | Other threads cannot move the capture on, take back an abort, or deliver an image while the mutex is held |
| `CameraCapture.CaptureClient.Capture` | camera/indi_camera_client.cpp:387-464 | Whatever the interleaving, every step is allowed and the call ends once, with the outcome it returns; it terminates |
| `CaptureLaws.OutcomeOfCall` | camera/indi_camera_client.cpp:427-463 | A call ends with the last image since its reset, or aborted without bytes, or timed out after its timeout, and sends an abort only in the last two cases |
| `CaptureLaws.GivesUpWithoutImage` | camera/indi_camera_client.cpp:427-457 | A call gives up only if no image came since its reset, and aborts only on a request after the flag was cleared |
| `CaptureLaws.AbortHonoured` | camera/indi_camera_client.cpp:427-438 | At the top of the loop a call gives up on an abort exactly when no image came since its reset and a request came after the last clearing; without such a request it goes on to wait |
| `CaptureLaws.LastImageMeans` | camera/indi_camera_client.cpp:316-329 | The stored result is the last nonempty blob after the last reset, by position in the run |
| `CaptureLaws.PendingMeans` | camera/indi_camera_client.cpp:399-399 | The abort flag is set exactly when a request came after the last clearing |
| `CaptureLaws.RoundsBounded` | camera/indi_camera_client.cpp:441-457 | A call waits at most max(1, ceil(timeout / 0.2 s)) times |
| `CaptureLaws.OneRoundAfterAbort` | camera/indi_camera_client.cpp:429-445 | After an abort at most one more wait begins before the flag is cleared for a new call |
| `CaptureLaws.CallsAlternate` | camera/indi_camera_client.cpp:387-464 | Resets and ends of calls alternate |
| `CaptureLaws.EarlyAbortLost` | camera/indi_camera_client.cpp:394-438 | A request with a clearing and no other request after it is lost in every run: the call cannot give up on it and goes on to wait |
| `CaptureLaws.EarlyAbortRun` | camera/indi_camera_client.cpp:394-438 | An abort between the two resets of a call is such a request |
| `CaptureLaws.NoWaitExactly` | camera/indi_camera_client.cpp:394-464 | A call returns an image without waiting exactly when an image came between its reset and its first wait |
| `CaptureLaws.StaleImageAccepted` | camera/indi_camera_client.cpp:394-464 | Every completed call commanded an exposure, and the image it returns is older than that command exactly when no image followed the command |
| `CaptureLaws.StaleImageRun` | camera/indi_camera_client.cpp:394-427 | An image that lands between the reset and the command is returned without a wait |
| `CameraConnection.CameraClient.ReadCcdInfo` | camera/indi_camera_client.cpp:273-282 | The loop reads the elements in order, and the data are valid exactly with a positive size |
| `CameraConnection.LastElementWins` | camera/indi_camera_client.cpp:273-282 | Each field ends as the last element of its kind, truncated where it is an integer, or keeps its value |
| `CameraConnection.CameraClient.ConnectCamera` | camera/indi_camera_client.cpp:60-118 | Past the guard, success leaves the device selected and failure leaves none selected and none connected; every step is allowed |
| `CameraConnection.CameraClient.SelectDevice` | camera/indi_camera_client.cpp:196-210 | The empty name drops the connection and keeps the selection; another name is connected or given up |
| `CameraConnection.CameraClient.EnsureConnected` | camera/indi_camera_client.cpp:170-194 | The selected device is attempted, once, exactly when there is one, the flag is clear, and the server is up or answers and is not lost before the attempt; nothing else is attempted |
| `CameraConnection.CameraClient.ReconnectRound` | camera/indi_camera_client.cpp:212-230 | After the pause the same, for the flag and the server as the callbacks of the pause left them |
| `CameraConnection.CameraClient.ReconnectLoop` | camera/indi_camera_client.cpp:212-230 | For any number of rounds, with nothing selected no attempt is made and nothing becomes connected |
| `ConnectionLaws.RunsAreSound` | camera/indi_camera_client.cpp:60-160 | In every run a connected camera is a selected one, and the camera data are valid exactly when width and height are positive |
| `ConnectionLaws.ConfirmedTwice` | camera/indi_camera_client.cpp:84-117 | A camera is confirmed only after two sightings in the same attempt at least 300 ms apart |
| `ConnectionLaws.SuccessMeans` | camera/indi_camera_client.cpp:84-117 | connectCamera returned true last only if its attempt ended confirmed, on two such sightings |
| `ConnectionLaws.EmptySelectionStays` | camera/indi_camera_client.cpp:338-350 | With nothing selected no callback selects or connects a camera |
| `ConnectionLaws.FailedAttemptNotRetried` | camera/indi_camera_client.cpp:103-112 | After a failed attempt the reconnect loop makes none until a camera is selected again |
| `ConnectionLaws.DeselectedComesBack` | camera/indi_camera_client.cpp:196-230 | selectDevice("") and then one round of the reconnect loop attempt exactly the device selected before, unless a callback sets its flag, the server does not answer, or it is lost before the attempt |
| `ConnectionLaws.LossOverwritten` | camera/indi_camera_client.cpp:96-114 | A loss of the server after the second sighting is overwritten: connected without a server |
| `ConnectionLaws.ServerDuringAttempt` | camera/indi_camera_client.cpp:60-118 | During an attempt the server is up exactly when it was not lost since the attempt began |
| `ConnectionLaws.ConfirmedTruly` | camera/indi_camera_client.cpp:60-118 | A camera is confirmed without a server exactly when the server was lost after its attempt began |
| `ExposureWorker.AstroMountCCD.StartExposure` | indi/astro_mount_ccd.cpp:258-272 | Refused while disconnected; otherwise one more worker, started only after the held one has finished |
| `ExposureWorker.AstroMountCCD.WorkerStep` | indi/astro_mount_ccd.cpp:274-326 | Each step of a worker is allowed and brings it closer to its end |
| `ExposureWorker.AstroMountCCD.AbortExposure` | indi/astro_mount_ccd.cpp:328-340 | The abort flag is set and the call succeeds |
| `ExposureLaws.AtMostOneAlive` | indi/astro_mount_ccd.cpp:267-270 | In every run at most one exposure thread is alive |
| `ExposureLaws.OneOutcomeBetweenStarts` | indi/astro_mount_ccd.cpp:274-326 | When a worker starts, every earlier one has reported exactly one outcome |
| `ExposureLaws.PassesUnlessAborted` | indi/astro_mount_ccd.cpp:289-302 | A worker that holds an image passes the check exactly when the image is not empty and no abort came since the flag was last cleared; else it fails |
| `ExposureLaws.AbortLost` | indi/astro_mount_ccd.cpp:263-268 | An abort is lost when the next start clears the flag first: the aborted image is stored and reported |
| `ExposureLaws.RunningFlagAtStart` | indi/astro_mount_ccd.cpp:264-270 | A worker starts with the running flag set exactly when the previous one had finished at the marking |
| `ErrorRecovery.StateCache.Claim` | ascom/StateCache.cs:91-97 | A claim is made exactly ten seconds or more after the last one, and is then the last one |
| `ErrorRecovery.StateCache.ClearErrors` | ascom/StateCache.cs:99-106 | Each call uses up a claim of its own |
| `ErrorRecovery.StateCache.Run` | ascom/StateCache.cs:72-115 | Under any overlap of callbacks and any clock, claims stay ten seconds apart and ClearErrors is called at most once per claim |
| `ErrorRecovery.ClaimsInSpan` | ascom/StateCache.cs:94-96 | Claims that span a time W number at most floor(W / 10) + 1 |
| `ErrorRecovery.AstroMountDriver.UpdateStatus` | indi/astro_mount_driver.cpp:1460-1507 | Status texts, attempt and stamp of one poll; the stamp moves only on success |
| `ErrorRecovery.SuccessesRested` | indi/astro_mount_driver.cpp:1482-1505 | Successful recoveries are ten seconds apart, unless the earlier stamp is the one that stands for never |
| `ErrorRecovery.SuccessesInSpan` | indi/astro_mount_driver.cpp:1482-1505 | Successful recoveries that span W number at most floor(W / 10 s) + 1 |
| `ErrorRecovery.AttemptsUpTo` | indi/astro_mount_driver.cpp:1482-1505 | The calls to ClearErrors are those of the polls that make an attempt, in order |
| `ErrorRecovery.SuccessRestsAttempts` | indi/astro_mount_driver.cpp:1482-1505 | By any clock the next attempt after a success, even a failing one, is ten seconds later, unless the success was stamped with the time that stands for never |
| `ErrorRecovery.RestExactly` | indi/astro_mount_driver.cpp:1482-1505 | By a steady clock an attempt is followed by ten seconds without another exactly when it succeeded (at a time other than the never stamp) or no poll in those seconds finds an error |
| `ErrorRecovery.FailuresUnlimited` | indi/astro_mount_driver.cpp:1495-1504 | While none succeeds and no success is recent, every erring poll makes an attempt |
| `ErrorRecovery.AttemptsAtOneInstant` | indi/astro_mount_driver.cpp:1482-1505 | Any number of attempts can fall on one instant |

## Left out

- Floating-point rounding and overflow: all arithmetic is exact; integer casts of camera sizes are truncations without overflow.
- Rotations.C2ixys: requires x*x + y*y <= 1; beyond the unit circle the code takes the root of a negative number. On the circle the infinite quotient of floating point is modelled by its arc tangent, a quarter turn.
- Rotations.C2ixysMatrix: as Rotations.C2ixys.
- Astrometry.Astrom.Apco: requires x*x + y*y <= 1, for the same reason, and takes the pole and the ephemerides as parameters.
- Astrometry.Astrom: the vectors and the matrix inside the context are values, not arrays of their own, so element-wise aliasing between them is not expressed.
- Astrometry.Pvtob: the station vector is computed on values; the error status of the geodetic conversion is the null vector it returns.
- Aberration.Ab: requires that the divisors are not zero; AberrationLaws.ProperDirection proves it for unit directions and StarPipeline.ChainComputable for deflected ones.
- Observed.AtioqSameFrame: the divisor of the refraction correction is assumed nonzero, as the code assumes.
- ObservedInverse.AtoiqUndoesAtioq: without atmosphere and diurnal aberration; with them the code is an approximate inverse by design.
- Precession.Precess: the three angles are parameters; their polynomials in the date and the system clock are not modelled.
- Precession.PrecessionRoundTrip: for abs(Dec) < 90; at the poles Precession.DirectionRoundTrip returns the direction, where the right ascension has no meaning.
- MountMapping.NormalizeHours: a negative range is excluded; the private method is called with 12 and 24 only.
- MountMapping.GetCurrentRaDec: the sidereal time is a parameter in both drivers; their approximations of it from the wall clock are not compared.
- Strings.TryParse: the culture's sign symbols are taken to be '+' and '-'.
- Strings.Lower: lower-casing is modelled on ASCII letters, enough for comparison with the words the parser knows.
- ConnectionStrings.AstroMountTelescope.ApplyConnectionString: the setter also recreates the gRPC client, which is not modelled.
- CameraCapture.CaptureClient.Capture: one capture at a time; the code does not prevent a second one. The progress callback is assumed to return normally, and of the commands sent to the driver only the exposure and the aborts appear, as events.
- CameraConnection.CameraClient.ConnectCamera: each callback is one atomic step, although the code reads the device name in one of them without its mutex; filter names, cooler state and log messages are not modelled.
- CameraConnection.CameraClient.ConnectToServer: called only while the server is down, as ensureConnected and selectDevice do; the call at start-up (camera/src/camera_service_impl.cpp:26) then behaves the same.
- ExposureWorker.AstroMountCCD.StartExposure: the camera service is taken to answer; image geometry and the connection itself are not modelled.
- ErrorRecovery.StateCache: reading the cached state and the timer's period are not modelled.
- Generated RPC stubs, setup dialogs, property definitions, sockets, thread scheduling and fairness.
- The libnova conversions of the INDI mapper, and the star-independent setters for other observers (iauApcg, iauApci and the variants ending in "13"), which compose the functions modelled here with ephemerides that are parameters.
- The controller's own state machine, pointing model and filters are not part of this model.
