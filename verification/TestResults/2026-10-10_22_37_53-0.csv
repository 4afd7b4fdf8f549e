TestResult.DisplayName,TestResult.Outcome,TestResult.Duration,TestResult.ResourceCount,RandomSeed
ApiLivros.SavedBookFoundById (correctness),Failed,00:00:01.1475353,2072843,0
ApiLivros.SavedBookFoundById (well-formedness),Passed,00:00:00.4055160,75743,0
